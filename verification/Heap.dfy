/** The heap and stack allocator: one free list in memory, searched from the front by
    getmem and freemem and from the back by getstk and freestk. */
module Heap {
  import opened Common
  import opened HeapSpec
  import opened HeapLinks

  const NULL := 0

  /** 32-bit addition and subtraction. */
  function Add32(a: int, b: int): int { (a + b) % TWO32 }

  function Sub32(a: int, b: int): int { (a - b) % TWO32 }

  /** freemem takes a range that is in bounds, free nowhere and below some free block:
      its overlap test compares with the list head when there is no block above. */
  ghost predicate FreememOk(f: seq<Block>, b: Block) {
    && (forall i :: 0 <= i < |f| ==> Apart(f[i], b))
    && exists i :: 0 <= i < |f| && b.addr < f[i].addr
  }

  /** freestk takes any range that is free nowhere. */
  ghost predicate FreestkOk(f: seq<Block>, b: Block) {
    forall i :: 0 <= i < |f| ==> Apart(f[i], b)
  }

  lemma FreememTest(f: seq<Block>, lo: int, hi: int, k: int, b: Block)
    requires Wf(f, lo, hi) && Splits(f, b.addr, k) && b.len > 0
    ensures FreememOk(f, b) <==> FitsAt(f, k, b) && k < |f|
  {
    FitsIsApart(f, lo, hi, k, b);
    if FitsAt(f, k, b) && k < |f| {
      assert b.addr < f[k].addr;
    }
  }

  /** `g` is `f` with the range `b` added. */
  ghost predicate Returned(f: seq<Block>, b: Block, g: seq<Block>) {
    exists k :: Below(f, b.addr, k) && FitsAt(f, k, b) && g == Given(f, k, b)
  }

  /** What freemem takes lies in the heap. */
  lemma FreememInHeap(f: seq<Block>, lo: int, hi: int, b: Block)
    requires Wf(f, lo, hi) && FreememOk(f, b) && b.len > 0
    ensures End(b) <= hi && b.addr <= hi
  {
    var i :| 0 <= i < |f| && b.addr < f[i].addr;
    assert Apart(f[i], b);
  }

  class MemList {
    const head: int           // address of the list head, below the heap
    const minheap: int
    const maxheap: int
    var node: Mem
    var firstfit: bool        // the environment variable EV_MEMALLOC
    ghost var free: seq<Block>

    ghost predicate Valid()
      reads this
    {
      && 0 < head < minheap < maxheap < TWO32
      && Wf(free, minheap, maxheap) && Linked(node, head, free) && Uint32(node[head].mlength)
    }

    /** The counter kept in the list head. */
    ghost function Counter(): int
      requires Valid()
      reads this
    {
      node[head].mlength
    }

    /** meminit: the whole heap is one free block and the counter starts at 0. */
    constructor Meminit(head_: int, minheap_: int, maxheap_: int, firstfit_: bool)
      requires 0 < head_ < minheap_ < maxheap_ < TWO32 && (maxheap_ - minheap_) % MIN_BLOCKSIZE == 0
      ensures Valid() && free == [Block(minheap_, maxheap_ - minheap_)] && Counter() == 0
      ensures head == head_ && minheap == minheap_ && maxheap == maxheap_ && firstfit == firstfit_
    {
      head, minheap, maxheap, firstfit := head_, minheap_, maxheap_, firstfit_;
      node := map[head_ := MemBlk(minheap_, 0, minheap_),
                  minheap_ := MemBlk(head_, maxheap_ - minheap_, head_)];
      free := [Block(minheap_, maxheap_ - minheap_)];
    }

    /** `a` is block `i` of the free list, or its head beyond either end. */
    ghost predicate IsAt(a: int, i: int)
      requires Valid()
      reads this
    {
      -1 <= i <= |free| && a == At(free, head, i) && a in node && (a == head <==> i == -1 || i == |free|)
    }

    lemma Here(i: int)
      requires Valid() && -1 <= i <= |free|
      ensures IsAt(At(free, head, i), i)
      ensures 0 <= i < |free| ==>
                var m := node[At(free, head, i)];
                m.mlength == free[i].len && m.mnext == At(free, head, i + 1) && m.mprev == At(free, head, i - 1)
                && IsAt(m.mnext, i + 1) && IsAt(m.mprev, i - 1)
      ensures IsAt(node[head].mnext, 0) && IsAt(node[head].mprev, |free| - 1)
    {
      forall j | -1 <= j <= |free|
        ensures IsAt(At(free, head, j), j)
      {
        Around(node, head, free, j);
      }
      if 0 <= i < |free| { assert LinkOk(node, head, free, i); }
    }

    // ---- getmem ----------------------------------------------------------------------

    /** An exact match is unlinked. */
    method TakeExact(prev: int, curr: int, nbytes: int, ghost i: int)
      requires Valid() && 0 <= i < |free| && IsAt(prev, i - 1) && IsAt(curr, i) && free[i].len == nbytes
      modifies this`node, this`free
      ensures Valid() && free == TakeLow(old(free), i, nbytes)
      ensures Counter() == Sub32(old(Counter()), nbytes)
    {
      Here(i);
      WfAscends(free, minheap, maxheap, head);
      Unlinked(node, head, free, i);
      TakenWf(free, minheap, maxheap, i, nbytes);
      node := Next(node, prev, node[curr].mnext);
      var next := node[curr].mnext;
      node := Prev(node, next, prev);
      free := TakeLow(free, i, nbytes);
      WfAscends(free, minheap, maxheap, head);
      Counted(node, head, free, Sub32(node[head].mlength, nbytes));
      node := Length(node, head, Sub32(node[head].mlength, nbytes));
    }

    /** A larger block loses its low end; what is left over is a new block. */
    method TakeFront(best: int, nbytes: int, ghost i: int)
      requires Valid() && 0 <= i < |free| && IsAt(best, i) && 0 <= nbytes < free[i].len && nbytes % MIN_BLOCKSIZE == 0
      modifies this`node, this`free
      ensures Valid() && free == TakeLow(old(free), i, nbytes)
      ensures Counter() == Sub32(old(Counter()), nbytes)
    {
      Here(i);
      TakenWf(free, minheap, maxheap, i, nbytes);
      WfAscends(free, minheap, maxheap, head);
      WfAscends(TakeLow(free, i, nbytes), minheap, maxheap, head);
      Replaced(node, head, free, i, Block(free[i].addr + nbytes, free[i].len - nbytes));
      var prev := node[best].mprev;
      var leftover := best + nbytes;
      var next, length := node[best].mnext, node[best].mlength;
      node := Next(node, prev, leftover);
      node := node[leftover := MemBlk(next, length - nbytes, prev)];
      node := Prev(node, next, leftover);
      free := TakeLow(free, i, nbytes);
      WfAscends(free, minheap, maxheap, head);
      Counted(node, head, free, Sub32(node[head].mlength, nbytes));
      node := Length(node, head, Sub32(node[head].mlength, nbytes));
    }

    /** What getmem has found before block `i`: no exact match, and in `best` the first of
        the least larger ones. */
    ghost predicate Searched(n: int, i: int, b: int)
      reads this
    {
      && 0 <= i <= |free|
      && (forall j :: 0 <= j < i ==> free[j].len != n)
      && (if b == -1 then forall j :: 0 <= j < i ==> free[j].len < n
          else
            && 0 <= b < i && free[b].len > n
            && (forall j :: 0 <= j < i && free[j].len > n ==>
                free[b].len < free[j].len || (free[b].len == free[j].len && b <= j)))
    }

    method Getmem(nbytes: int) returns (r: int)
      requires Valid() && Uint32(nbytes)
      modifies this`node, this`free
      ensures Valid()
      ensures r == SYSERR <==> nbytes == 0 || !Enough(old(free), Roundmb(nbytes))
      ensures r == SYSERR ==> node == old(node) && free == old(free)
      ensures r != SYSERR ==>
                && Counter() == Sub32(old(Counter()), Roundmb(nbytes))
                && exists i :: MemPick(old(free), Roundmb(nbytes), firstfit, i) && r == old(free)[i].addr
                               && free == TakeLow(old(free), i, Roundmb(nbytes))
    {
      hide TakeLow;
      if nbytes == 0 {
        return SYSERR;
      }
      var n := Roundmb(nbytes);
      var prev, curr, best := head, node[head].mnext, NULL;
      ghost var i, b := 0, -1;
      Here(-1);
      SearchedNone(n);
      hide Wf, Linked, Searched, MemPick, Enough;
      while curr != head
        invariant Valid() && node == old(node) && free == old(free)
        invariant IsAt(curr, i) && IsAt(prev, i - 1) && Searched(n, i, b)
        invariant best == if b == -1 then NULL else At(free, head, b)
        invariant firstfit ==> b == -1
        decreases |free| - i
      {
        Here(i);
        ghost var b0 := b;
        if node[curr].mlength == n {
          Exact(n, i, b);
          TakeExact(prev, curr, n, i);
          return curr;
        } else if node[curr].mlength > n {
          if b != -1 {
            BestIn(n, i, b);
            Here(b);
          }
          if best == NULL || node[best].mlength > node[curr].mlength {
            best, b := curr, i;
          }
          if firstfit {
            break;
          }
        }
        SearchedMore(n, i, b0, b);
        prev := curr;
        curr := node[curr].mnext;
        i := i + 1;
      }
      if best != NULL {
        Larger(n, i, b);
        Here(b);
        TakeFront(best, n, b);
        return best;
      }
      return SYSERR;
    }

    lemma SearchedNone(n: int)
      ensures Searched(n, 0, -1)
    {
    }

    lemma BestIn(n: int, i: int, b: int)
      requires Searched(n, i, b) && b != -1
      ensures 0 <= b < i <= |free|
    {
    }

    lemma SearchedMore(n: int, i: int, b: int, b': int)
      requires Searched(n, i, b) && i < |free| && free[i].len != n
      requires b' == if free[i].len > n && (b == -1 || (0 <= b < |free| && free[b].len > free[i].len)) then i else b
      ensures Searched(n, i + 1, b')
    {
    }

    lemma Exact(n: int, i: int, b: int)
      requires Valid() && i < |free| && Searched(n, i, b) && free[i].len == n && (firstfit ==> b == -1)
      ensures MemPick(free, n, firstfit, i) && Enough(free, n)
    {
    }

    lemma Larger(n: int, i: int, b: int)
      requires Valid() && 0 <= i <= |free|
      requires if firstfit then b == i < |free| && free[b].len > n && Searched(n, i, -1)
                 else b != -1 && i == |free| && Searched(n, i, b)
      ensures MemPick(free, n, firstfit, b) && Enough(free, n)
    {
    }

    // ---- getstk ----------------------------------------------------------------------

    /** What getstk has found above block `i`. */
    ghost predicate Fitting(n: int, i: int, b: int)
      reads this
    {
      && -1 <= i < |free|
      && (if b == -1 then forall j :: i < j < |free| ==> free[j].len < n
          else
            && i < b < |free| && free[b].len >= n
            && (if firstfit then forall j :: i < j < b ==> free[j].len < n
                else forall j :: i < j < |free| && free[j].len >= n ==>
                       free[b].len < free[j].len
                       || (free[b].len == free[j].len && if free[b].len == n then b <= j else j <= b)))
    }

    lemma FittingNone(n: int)
      ensures Fitting(n, |free| - 1, -1)
    {
    }

    lemma FitIn(n: int, i: int, b: int)
      requires Fitting(n, i, b) && b != -1
      ensures i < b < |free| && free[b].len >= n
    {
    }

    lemma FittingMore(n: int, i: int, b: int, b': int)
      requires Fitting(n, i, b) && 0 <= i
      requires b == -1 || i < b < |free|
      requires b' == if free[i].len >= n && (firstfit || b == -1 || free[i].len == n || free[b].len > free[i].len)
                 then i else b
      ensures Fitting(n, i - 1, b')
    {
    }

    lemma FitFound(n: int, b: int)
      requires Fitting(n, -1, b)
      ensures b == -1 <==> !Enough(free, n)
      ensures b != -1 ==> StkPick(free, n, firstfit, b)
    {
    }

    /** The chosen block is unlinked, or loses its high end; `fits` is where the stack starts. */
    method TakeTop(fits0: int, fitsprev: int, nbytes: int, ghost b: int) returns (fits: int)
      requires Valid() && 0 <= b < |free| && IsAt(fits0, b) && IsAt(fitsprev, b + 1)
      requires 0 <= nbytes <= free[b].len && nbytes % MIN_BLOCKSIZE == 0
      modifies this`node, this`free
      ensures Valid() && free == TakeHigh(old(free), b, nbytes)
      ensures Counter() == Sub32(old(Counter()), nbytes) && fits == HighPart(old(free), b, nbytes).addr
    {
      hide Wf, Linked;
      fits := fits0;
      Here(-1);
      Here(b);
      WfAscends(free, minheap, maxheap, head);
      TakenWf(free, minheap, maxheap, b, nbytes);
      if nbytes == node[fits].mlength {
        Unlinked(node, head, free, b);
        EitherOrder(node, node[fits].mprev, fitsprev);
        var prev := node[fits].mprev;
        node := Prev(node, fitsprev, prev);
        node := Next(node, prev, fitsprev);
      } else {
        Relengthed(node, head, free, b, free[b].len - nbytes);
        node := Length(node, fits, node[fits].mlength - nbytes);
        fits := fits + node[fits].mlength;
      }
      free := TakeHigh(free, b, nbytes);
      WfAscends(free, minheap, maxheap, head);
      Counted(node, head, free, Sub32(node[head].mlength, nbytes));
      node := Length(node, head, Sub32(node[head].mlength, nbytes));
    }

    /** The loop of getstk, over the whole list from the back. */
    method SearchBack(n: int) returns (fits: int, fitsprev: int, ghost b: int)
      requires Valid()
      ensures -1 <= b < |free| && (fits == NULL <==> b == -1) && (b == -1 <==> !Enough(free, n))
      ensures b != -1 ==> StkPick(free, n, firstfit, b) && IsAt(fits, b) && IsAt(fitsprev, b + 1)
    {
      var prev, curr := head, node[head].mprev;
      fits, fitsprev := NULL, NULL;
      ghost var i := |free| - 1;
      b := -1;
      Here(-1);
      FittingNone(n);
      hide Wf, Linked, Fitting;
      while curr != head
        invariant IsAt(curr, i) && IsAt(prev, i + 1) && Fitting(n, i, b) && -1 <= i
        invariant -1 <= b < |free| && (b != -1 ==> IsAt(fitsprev, b + 1) && IsAt(fits, b))
        invariant fits == NULL <==> b == -1
        decreases i
      {
        Here(i);
        ghost var b0 := b;
        if b != -1 {
          FitIn(n, i, b);
          Here(b);
        }
        if node[curr].mlength >= n {
          if firstfit || fits == NULL || node[curr].mlength == n || node[fits].mlength > node[curr].mlength {
            fits, b := curr, i;
            fitsprev := prev;
          }
        }
        FittingMore(n, i, b0, b);
        prev := curr;
        curr := node[curr].mprev;
        i := i - 1;
      }
      FitFound(n, b);
    }

    /** The result is the highest word of the stack. */
    method Getstk(nbytes: int) returns (r: int)
      requires Valid() && Uint32(nbytes)
      modifies this`node, this`free
      ensures Valid()
      ensures r == SYSERR <==> nbytes == 0 || !Enough(old(free), Roundmb(nbytes))
      ensures r == SYSERR ==> node == old(node) && free == old(free)
      ensures r != SYSERR ==>
                && Counter() == Sub32(old(Counter()), Roundmb(nbytes))
                && exists i :: StkPick(old(free), Roundmb(nbytes), firstfit, i)
                               && r == End(HighPart(old(free), i, Roundmb(nbytes))) - WORD
                               && free == TakeHigh(old(free), i, Roundmb(nbytes))
    {
      if nbytes == 0 {
        return SYSERR;
      }
      var n := Roundmb(nbytes);
      ghost var b;
      var fits, fitsprev;
      fits, fitsprev, b := SearchBack(n);
      if fits == NULL {
        return SYSERR;
      }
      fits := TakeTop(fits, fitsprev, n, b);
      return fits + n - WORD;
    }

    // ---- freemem and freestk -----------------------------------------------------------

    /** The new block is added to the one below it. */
    method Extend(prev: int, nbytes: int, ghost k: int)
      requires Valid() && 0 < k <= |free| && IsAt(prev, k - 1)
      requires FitsAt(free, k, Block(End(free[k - 1]), nbytes))
      requires InHeap([Block(End(free[k - 1]), nbytes)], minheap, maxheap)
      modifies this`node
      ensures Holds(Placed(free, k, Block(End(free[k - 1]), nbytes))) && node[head].mlength == old(Counter())
    {
      ghost var b := Block(End(free[k - 1]), nbytes);
      assert minheap <= [b][0].addr;
      Here(k - 1);
      WfAscends(free, minheap, maxheap, head);
      PlacedAscends(free, minheap, maxheap, head, k, b);
      Relengthed(node, head, free, k - 1, free[k - 1].len + nbytes);
      node := Length(node, prev, node[prev].mlength + nbytes);
    }

    /** The list in memory is `f`, in which blocks may touch. */
    ghost predicate Holds(f: seq<Block>)
      reads this
    {
      0 < head < minheap < maxheap < TWO32 && InHeap(f, minheap, maxheap) && Linked(node, head, f) && Ascending(f, head)
    }

    /** The new block is linked in at place `k`. */
    method LinkIn(prev: int, next: int, block: int, nbytes: int, ghost k: int)
      requires Valid() && 0 <= k <= |free| && IsAt(prev, k - 1) && IsAt(next, k)
      requires FitsAt(free, k, Block(block, nbytes)) && InHeap([Block(block, nbytes)], minheap, maxheap)
      requires !JoinsPrev(free, k, Block(block, nbytes))
      modifies this`node
      ensures Holds(Placed(free, k, Block(block, nbytes))) && node[head].mlength == old(Counter())
    {
      ghost var b := Block(block, nbytes);
      assert minheap <= [b][0].addr;
      Here(k - 1);
      Here(k);
      WfAscends(free, minheap, maxheap, head);
      PlacedAscends(free, minheap, maxheap, head, k, b);
      Entered(node, head, free, k, b);
      node := node[block := MemBlk(next, nbytes, prev)];
      node := Prev(node, next, block);
      node := Next(node, prev, block);
    }

    /** The block takes over the one above it if they touch. */
    method Coalesce(block: int, next0: int, ghost f: seq<Block>, ghost i: int)
      requires Holds(f) && 0 <= i < |f| && block == f[i].addr
      requires next0 == At(f, head, i + 1) && Wf(Joined(f, i), minheap, maxheap)
      requires Uint32(node[head].mlength)
      modifies this`node, this`free
      ensures Valid() && free == Joined(f, i) && Counter() == old(node[head].mlength)
    {
      assert LinkOk(node, head, f, i);
      Around(node, head, f, i + 1);
      if Add32(block, node[block].mlength) == next0 {
        assert i + 1 < |f|;
        assert LinkOk(node, head, f, i + 1);
        Merged(node, head, f, i);
        node := Length(node, block, node[block].mlength + node[next0].mlength);
        node := Next(node, block, node[next0].mnext);
        var next := node[block].mnext;
        node := Prev(node, next, block);
      }
      free := Joined(f, i);
    }

    /** The end of freemem and freestk: the range is known to overlap nothing. */
    method Release(prev: int, next: int, block0: int, nbytes: int, top: int, ghost k: int)
      requires Valid() && 0 <= k <= |free| && IsAt(prev, k - 1) && IsAt(next, k)
      requires FitsAt(free, k, Block(block0, nbytes)) && InHeap([Block(block0, nbytes)], minheap, maxheap)
      requires top == if k == 0 then NULL else End(free[k - 1])
      modifies this`node, this`free
      ensures Valid() && Returned(old(free), Block(block0, nbytes), free) && Counter() == Add32(old(Counter()), nbytes)
    {
      ghost var b := Block(block0, nbytes);
      assert minheap <= [b][0].addr;
      FitsIsBelow(free, minheap, maxheap, k, b);
      GivenWf(free, minheap, maxheap, k, b);
      WfAscends(free, minheap, maxheap, head);
      Counted(node, head, free, Add32(node[head].mlength, nbytes));
      node := Length(node, head, Add32(node[head].mlength, nbytes));
      var block := block0;
      if top == block {
        Extend(prev, nbytes, k);
        block := prev;
      } else {
        LinkIn(prev, next, block, nbytes, k);
      }
      Coalesce(block, next, Placed(free, k, b), if JoinsPrev(free, k, b) then k - 1 else k);
    }

    /** The lengths that do not wrap, for a range that does not stick out of the heap. */
    predicate NoWrap(blkaddr: int, nbytes: int) {
      0 <= nbytes <= TWO32 - MIN_BLOCKSIZE && 0 <= blkaddr && blkaddr + Roundmb(nbytes) < TWO32
    }

    /** The walk of freemem along the list from the front. */
    method WalkUp(block: int) returns (prev: int, next: int, ghost k: int)
      requires Valid()
      ensures 0 <= k <= |free| && IsAt(prev, k - 1) && IsAt(next, k) && Splits(free, block, k)
      ensures k > 0 ==> node[prev].mlength == free[k - 1].len
    {
      prev, next, k := head, node[head].mnext, 0;
      Here(-1);
      while next != head && next < block
        invariant IsAt(next, k) && IsAt(prev, k - 1)
        invariant k > 0 ==> free[k - 1].addr <= block
        decreases |free| - k
      {
        Here(k);
        prev := next;
        next := node[next].mnext;
        k := k + 1;
      }
      Here(k - 1);
      Here(k);
      SplitsHere(block, k);
    }

    /** The walk of freestk from the back. */
    method WalkDown(block: int) returns (curr: int, next: int, ghost k: int)
      requires Valid()
      ensures 0 <= k <= |free| && IsAt(curr, k - 1) && IsAt(next, k) && Splits(free, block, k)
      ensures k > 0 ==> node[curr].mlength == free[k - 1].len
    {
      next, curr, k := head, node[head].mprev, |free|;
      Here(-1);
      while curr != head && curr > block
        invariant IsAt(next, k) && IsAt(curr, k - 1) && 0 <= k
        invariant k < |free| ==> block <= free[k].addr
        decreases k
      {
        Here(k - 1);
        next := curr;
        curr := node[curr].mprev;
        k := k - 1;
      }
      Here(k - 1);
      Here(k);
      SplitsHere(block, k);
    }

    /** Past the blocks below `a` all are above it. */
    lemma SplitsHere(a: int, k: int)
      requires Valid() && 0 <= k <= |free|
      requires (k == 0 || free[k - 1].addr <= a) && (k == |free| || a <= free[k].addr)
      ensures Splits(free, a, k)
    {
      forall i | 0 <= i < |free|
        ensures if i < k then free[i].addr <= a else a <= free[i].addr
      {
        if i < k - 1 { assert Gap(free, i, k - 1); }
        if i > k { assert Gap(free, k, i); }
      }
    }

    method Freemem(blkaddr: int, nbytes: int) returns (r: int)
      requires Valid() && NoWrap(blkaddr, nbytes)
      modifies this`node, this`free
      ensures Valid() && (r == OK || r == SYSERR)
      ensures r == OK <==> nbytes != 0 && minheap <= blkaddr && FreememOk(old(free), Block(blkaddr, Roundmb(nbytes)))
      ensures r == SYSERR ==> node == old(node) && free == old(free)
      ensures r == OK ==>
                && Returned(old(free), Block(blkaddr, Roundmb(nbytes)), free)
                && Counter() == Add32(old(Counter()), Roundmb(nbytes))
    {
      hide FreememOk, Wf, Linked, Splits;
      if nbytes != 0 && FreememOk(free, Block(blkaddr, Roundmb(nbytes))) {
        FreememInHeap(free, minheap, maxheap, Block(blkaddr, Roundmb(nbytes)));
      }
      if nbytes == 0 || blkaddr < minheap || blkaddr > maxheap {
        return SYSERR;
      }
      var n := Roundmb(nbytes);
      var block := blkaddr;
      ghost var k;
      var prev, next;
      prev, next, k := WalkUp(block);
      FreememTest(free, minheap, maxheap, k, Block(block, n));
      var top := if prev == head then NULL else prev + node[prev].mlength;
      if (prev != head && block < top) || (next != NULL && Add32(block, n) > next) {
        return SYSERR;
      }
      Release(prev, next, block, n, top, k);
      return OK;
    }

    /** The address is computed from the length as given, before it is rounded. */
    method Freestk(stkaddr: int, nbytes: int) returns (r: int)
      requires Valid() && Uint32(nbytes) && NoWrap(Sub32(stkaddr + WORD, nbytes), nbytes)
      requires var b := Block(Sub32(stkaddr + WORD, nbytes), Roundmb(nbytes));
               minheap <= b.addr <= maxheap && FreestkOk(free, b) ==> End(b) <= maxheap
      modifies this`node, this`free
      ensures Valid() && (r == OK || r == SYSERR)
      ensures var b := Block(Sub32(stkaddr + WORD, nbytes), Roundmb(nbytes));
              && (r == OK <==> nbytes != 0 && minheap <= b.addr <= maxheap && FreestkOk(old(free), b))
              && (r == OK ==> Returned(old(free), b, free) && Counter() == Add32(old(Counter()), Roundmb(nbytes)))
      ensures r == SYSERR ==> node == old(node) && free == old(free)
    {
      var blkaddr := Sub32(stkaddr + WORD, nbytes);
      if nbytes == 0 || blkaddr < minheap || blkaddr > maxheap {
        return SYSERR;
      }
      var n := Roundmb(nbytes);
      var block := blkaddr;
      ghost var k;
      var next, curr;
      curr, next, k := WalkDown(block);
      FitsIsApart(free, minheap, maxheap, k, Block(block, n));
      var top := if curr == head then NULL else curr + node[curr].mlength;
      if (curr != head && block < top) || (next != head && Add32(block, n) > next) {
        return SYSERR;
      }
      Release(curr, next, block, n, top, k);
      return OK;
    }
  }
}
