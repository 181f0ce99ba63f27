/** The allocator calls in place, as steps of a run: a client that keeps the blocks it was
    handed and gives back only those. */
module HeapCalls {
  import opened Common
  import opened HeapSpec
  import opened Heap
  import opened HeapRuns

  /** A memory list with the blocks in use. */
  class Client {
    const mem: MemList
    ghost var live: seq<Block>
    ghost const base: int

    ghost function State(): Arena
      requires mem.Valid()
      reads this, mem
    {
      Arena(mem.free, live, mem.Counter())
    }

    ghost predicate Valid()
      reads this, mem
    {
      mem.Valid() && Inv(State(), mem.minheap, mem.maxheap, base)
    }

    /** meminit on a heap that holds whole blocks. */
    constructor Meminit(head: int, minheap: int, maxheap: int, firstfit: bool)
      requires 0 < head < minheap < maxheap < TWO32 && (maxheap - minheap) % MIN_BLOCKSIZE == 0
      ensures Valid() && live == [] && fresh(mem)
    {
      mem := new MemList.Meminit(head, minheap, maxheap, firstfit);
      live := [];
      base := maxheap - minheap;
      new;
      var s := [State()];
      assert Run(s, []);
      RunInv(s, [], minheap, maxheap, 0);
    }

    /** A request that rounds to 0 may be met, but then there is no block. */
    method Getmem(nbytes: int) returns (r: int)
      requires Valid() && Uint32(nbytes)
      modifies this, mem`node, mem`free
      ensures Valid() && Step(old(State()), Mem(nbytes, mem.firstfit), State())
      ensures live == if r == SYSERR || Roundmb(nbytes) == 0 then old(live)
                      else old(live) + [Block(r, Roundmb(nbytes))]
    {
      hide Inv, TakeLow, MemPick, Enough, Roundmb;
      ghost var a := State();
      Nothing(nbytes);
      r := mem.Getmem(nbytes);
      if r != SYSERR && Roundmb(nbytes) != 0 {
        live := live + [Block(r, Roundmb(nbytes))];
      }
      StepInv(a, Mem(nbytes, mem.firstfit), State(), mem.minheap, mem.maxheap, base);
    }

    /** The result is the address of the last word of the stack, which ends there. */
    method Getstk(nbytes: int) returns (r: int)
      requires Valid() && Uint32(nbytes)
      modifies this, mem`node, mem`free
      ensures Valid() && Step(old(State()), Stk(nbytes, mem.firstfit), State())
      ensures var n := Roundmb(nbytes);
              live == if r == SYSERR || n == 0 then old(live) else old(live) + [Block(r + WORD - n, n)]
    {
      hide Inv, TakeHigh, StkPick, Enough, Roundmb;
      ghost var a := State();
      Nothing(nbytes);
      r := mem.Getstk(nbytes);
      if r != SYSERR && Roundmb(nbytes) != 0 {
        live := live + [Block(r + WORD - Roundmb(nbytes), Roundmb(nbytes))];
      }
      StepInv(a, Stk(nbytes, mem.firstfit), State(), mem.minheap, mem.maxheap, base);
    }

    /** Taking 0 bytes leaves the free list and the counter. */
    lemma Nothing(nbytes: int)
      requires Valid() && Uint32(nbytes)
      ensures Uint32(Roundmb(nbytes)) && Roundmb(0) == 0 && Sub32(mem.Counter(), 0) == mem.Counter()
      ensures forall i :: MemPick(mem.free, Roundmb(nbytes), mem.firstfit, i) ==>
                0 <= i < |mem.free| && TakeLow(mem.free, i, 0) == mem.free
      ensures forall i :: StkPick(mem.free, Roundmb(nbytes), mem.firstfit, i) ==>
                0 <= i < |mem.free| && TakeHigh(mem.free, i, 0) == mem.free
    {
    }

    /** A block is given back with the address and length it was asked for. */
    method Freemem(ghost j: int, blkaddr: int, nbytes: int) returns (r: int)
      requires Valid() && 0 <= j < |live| && 0 < nbytes <= TWO32 - MIN_BLOCKSIZE
      requires live[j] == Block(blkaddr, Roundmb(nbytes))
      modifies this, mem`node, mem`free
      ensures Valid() && Step(old(State()), FreeMem(j), State())
      ensures r == OK <==> exists i :: 0 <= i < |old(mem.free)| && blkaddr < old(mem.free)[i].addr
      ensures live == if r == OK then Without(old(live), j) else old(live)
    {
      hide Inv, FreememOk, FreestkOk, HeapSpec.Given, Roundmb, Add32, Returned, MemList.Valid;
      ghost var a := State();
      InUseInBounds(j);
      RefusedIff(a, mem.minheap, mem.maxheap, base, j);
      r := mem.Freemem(blkaddr, nbytes);
      if r == OK {
        live := Without(live, j);
      }
      StepInv(a, FreeMem(j), State(), mem.minheap, mem.maxheap, base);
    }

    /** A stack is given back by the address of its last word. */
    method Freestk(ghost j: int, stkaddr: int, nbytes: int) returns (r: int)
      requires Valid() && 0 <= j < |live| && 0 < nbytes <= TWO32 - MIN_BLOCKSIZE && nbytes % MIN_BLOCKSIZE == 0
      requires live[j] == Block(stkaddr + WORD - nbytes, nbytes)
      modifies this, mem`node, mem`free
      ensures Valid() && r == OK && Step(old(State()), FreeStk(j), State()) && live == Without(old(live), j)
    {
      hide Inv, FreememOk, FreestkOk, HeapSpec.Given, Roundmb, Add32, Sub32, Returned, MemList.Valid;
      ghost var a := State();
      InUseInBounds(j);
      StackRange(stkaddr, nbytes);
      RefusedIff(a, mem.minheap, mem.maxheap, base, j);
      r := mem.Freestk(stkaddr, nbytes);
      live := Without(live, j);
      StepInv(a, FreeStk(j), State(), mem.minheap, mem.maxheap, base);
    }

    /** The range that freestk works out. */
    lemma StackRange(stkaddr: int, nbytes: int)
      requires 0 < nbytes <= TWO32 - MIN_BLOCKSIZE && nbytes % MIN_BLOCKSIZE == 0
      ensures Roundmb(nbytes) == nbytes
      ensures 0 <= stkaddr + WORD - nbytes < TWO32 ==> Sub32(stkaddr + WORD, nbytes) == stkaddr + WORD - nbytes
    {
    }

    lemma InUseInBounds(j: int)
      requires Valid() && 0 <= j < |live|
      ensures mem.minheap <= live[j].addr && 0 < live[j].len
      ensures live[j].addr + live[j].len <= mem.maxheap < TWO32 && 0 < mem.minheap
    {
    }
  }
}
