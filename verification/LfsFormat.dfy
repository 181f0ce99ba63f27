/** A newly formatted disk, and the state of a file system none of whose files is open. */
module LfsFormat {
  import opened LfsLayout
  import opened LfsState
  import opened LfsSteps
  import opened LfsOps

  function Upto(a: int, b: int): (l: seq<int>)
    requires a <= b
    ensures |l| == b - a && forall k :: 0 <= k < b - a ==> l[k] == a + k
  {
    seq(b - a, k => a + k)
  }

  function FreePlace(x: int, lo: int): Place { Place(FREEL, x - lo) }

  /** All blocks are on the free lists, in order, and no file is open. */
  function FreshLayout(lo: int, hi: int): Layout
    requires 1 <= lo <= hi
  {
    Layout(seq(LF_NUM_DIR_ENT, _ => []) + [Upto(0, 7 * (lo - 1))],
           seq(LF_NUM_DIR_ENT, _ => []) + [Upto(lo, hi)],
           map x: int | 0 <= x < 7 * (lo - 1) :: FreePlace(x, 0),
           map x: int | lo <= x < hi :: FreePlace(x, lo),
           seq(LF_NUM_DIR_ENT, _ => -1), lo, hi)
  }

  /** The links that the first loop of lfscreate has written. */
  ghost predicate IbsLinked(ibs: seq<IBlk>, n: nat) {
    forall k :: 0 <= k < n ==> ILink(ibs, Upto(0, |ibs|), k)
  }

  /** The links that the second loop of lfscreate has written. */
  ghost predicate DbsLinked(db: seq<Sector>, lo: int, l: seq<int>, n: nat) {
    forall k :: 0 <= k < n ==> DLink(db, lo, l, k)
  }

  lemma IbLinked(ibs: seq<IBlk>, i: nat, b: IBlk)
    requires i < |ibs| && IbsLinked(ibs, i) && b.next == if i + 1 < |ibs| then i + 1 else LF_INULL
    ensures IbsLinked(ibs[i := b], i + 1)
  {
    var ibs', l := ibs[i := b], Upto(0, |ibs|);
    forall k | 0 <= k < i + 1
      ensures ILink(ibs', l, k)
    {
      if k < i {
        assert ILink(ibs, l, k);
      }
    }
  }

  lemma DbLinked(db: seq<Sector>, lo: int, i: nat, b: Sector)
    requires i < |db| && DbsLinked(db, lo, Upto(lo, lo + |db|), i)
    requires NextDb(b) == if i + 1 < |db| then lo + i + 1 else LF_DNULL
    ensures DbsLinked(db[i := b], lo, Upto(lo, lo + |db|), i + 1)
  {
    var db', l := db[i := b], Upto(lo, lo + |db|);
    forall k | 0 <= k < i + 1
      ensures DLink(db', lo, l, k)
    {
      if k < i {
        assert DLink(db, lo, l, k);
      }
    }
  }

  function EmptyDir(lo: int): Dir {
    Dir(lo, 0, 0, seq(LF_NUM_DIR_ENT, _ => Entry(0, 0, seq(LF_NAME_LEN, _ => 0))))
  }

  lemma FreshOwned(lo: int, hi: int)
    requires 1 <= lo <= hi
    ensures Owned(FreshLayout(lo, hi).il, FreshLayout(lo, hi).iown, 0, 7 * (lo - 1))
    ensures Owned(FreshLayout(lo, hi).dl, FreshLayout(lo, hi).down, lo, hi)
  {
    var lay := FreshLayout(lo, hi);
    forall x | 0 <= x < 7 * (lo - 1)
      ensures Placed(lay.il, lay.iown, x)
    {
      assert lay.il[FREEL][x] == x;
    }
    forall x | lo <= x < hi
      ensures Placed(lay.dl, lay.down, x)
    {
      assert lay.dl[FREEL][x - lo] == x;
    }
  }

  /** What lfscreate writes is a file system without files: the free index list is
      `0 ..`, the free data list is every sector after the index area. */
  lemma FreshIsGood(s: St)
    requires 1 < s.lay.lo < s.lay.hi <= 0x80_0000 && s.lay == FreshLayout(s.lay.lo, s.lay.hi)
    requires |s.ibs| == 7 * (s.lay.lo - 1) && |s.db| == s.lay.hi - s.lay.lo
    requires s.dir == EmptyDir(s.lay.lo) && IbsLinked(s.ibs, |s.ibs|)
    requires DbsLinked(s.db, s.lay.lo, Upto(s.lay.lo, s.lay.hi), |s.db|)
    requires |s.cbs| == NLFL && forall m :: 0 <= m < NLFL ==> !s.cbs[m].used
    ensures Good(s)
  {
    FreshOwned(s.lay.lo, s.lay.hi);
    assert s.lay.il[FREEL] == Upto(0, |s.ibs|) && s.lay.dl[FREEL] == Upto(s.lay.lo, s.lay.lo + |s.db|);
    assert ILink(s.ibs, s.lay.il[FREEL], 0) && DLink(s.db, s.lay.lo, s.lay.dl[FREEL], 0);
  }

  /** The control blocks do not matter while no file is open, so a file system that is
      mounted again finds the same files. */
  lemma Remounted(s: St, cbs: seq<Cb>)
    requires Good(s) && |s.cbs| == NLFL && forall m :: 0 <= m < NLFL ==> !s.cbs[m].used
    requires |cbs| == NLFL && forall m :: 0 <= m < NLFL ==> !cbs[m].used
    ensures Good(s.(cbs := cbs))
    ensures forall f :: 0 <= f < s.dir.nfiles ==> FileBytes(s.(cbs := cbs), f) == FileBytes(s, f)
  {
    hide Says, CStr;
    var t := s.(cbs := cbs);
    forall f, q | 0 <= f < LF_NUM_DIR_ENT && 0 <= q < |t.lay.il[f]|
      ensures BlockOk(t, f, q)
    {
      assert BlockOk(s, f, q);
    }
    forall f | 0 <= f < s.dir.nfiles
      ensures FileBytes(t, f) == FileBytes(s, f)
    {
      SameBytes(s, t, f);
    }
  }

  /** In every good state each index block and each data block is on exactly one list, a
      file's or a free list, exactly once, and no two open files share an entry. */
  lemma GoodIsPartition(s: St)
    requires Good(s)
    ensures Partition(s.lay.il, 0, |s.ibs|) && Partition(s.lay.dl, s.lay.lo, s.lay.hi)
    ensures forall i, j :: 0 <= i < j < NLFL && s.cbs[i].used && s.cbs[j].used ==> s.cbs[i].file != s.cbs[j].file
  {
    OwnedIsPartition(s.lay.il, s.lay.iown, 0, |s.ibs|);
    OwnedIsPartition(s.lay.dl, s.lay.down, s.lay.lo, s.lay.hi);
  }
}
