/** The state of a mounted local file system as one value: the index blocks and data
    blocks on the disk, the directory in memory, the control blocks of the open files
    and (for specification only) which blocks belong to which file.  The invariant says
    that the chains and free lists found on the disk, overlaid by the cached blocks, are
    exactly these. */
module LfsState {
  import opened Common
  import opened LfsLayout

  const NLFL := 6
  const FREEL := LF_NUM_DIR_ENT  // position of the free list among the block lists

  datatype Cb = Cb(used: bool, file: int, pos: int, name: seq<byte>,
                   inum: int, iblk: IBlk, dnum: int, dblk: Sector, at: int,
                   ibdirty: bool, dbdirty: bool)

  /** Where a block is: on which list, and where on it. */
  datatype Place = Place(list: int, idx: int)

  /** `il[f]` and `dl[f]` are the index and data blocks of file `f` in file order, with
      the free lists at position FREEL; `iown` and `down` are the inverse; `opener[f]` is
      the control block of file `f`; data blocks are the sectors `lo` to `hi`. */
  datatype Layout = Layout(il: seq<seq<int>>, dl: seq<seq<int>>, iown: map<int, Place>, down: map<int, Place>,
                           opener: seq<int>, lo: int, hi: int)

  /** `ibs[j]` is index block `j` on the disk and `db[d - lo]` is sector `d`. */
  datatype St = St(ibs: seq<IBlk>, db: seq<Sector>, dir: Dir, cbs: seq<Cb>, lay: Layout)

  // ---- Every block on exactly one list, exactly once -------------------------------

  ghost predicate Listed(ls: seq<seq<int>>, x: int) {
    exists a, i :: 0 <= a < |ls| && 0 <= i < |ls[a]| && ls[a][i] == x
  }

  ghost predicate Partition(ls: seq<seq<int>>, lo: int, hi: int) {
    && (forall a, i :: 0 <= a < |ls| && 0 <= i < |ls[a]| ==> lo <= ls[a][i] < hi)
    && (forall a, i, b, j | 0 <= a < |ls| && 0 <= i < |ls[a]| && 0 <= b < |ls| && 0 <= j < |ls[b]| ::
          ls[a][i] == ls[b][j] ==> a == b && i == j)
    && (forall x :: lo <= x < hi ==> Listed(ls, x))
  }

  ghost predicate PlaceOk(ls: seq<seq<int>>, own: map<int, Place>, lo: int, hi: int, a: int, i: int) {
    && 0 <= a < |ls| && 0 <= i < |ls[a]|
    && lo <= ls[a][i] < hi && ls[a][i] in own && own[ls[a][i]] == Place(a, i)
  }

  ghost predicate Placed(ls: seq<seq<int>>, own: map<int, Place>, x: int) {
    x in own && 0 <= own[x].list < |ls| && 0 <= own[x].idx < |ls[own[x].list]| && ls[own[x].list][own[x].idx] == x
  }

  /** `own` is the inverse of `ls` and is defined exactly on `lo .. hi`. */
  ghost predicate Owned(ls: seq<seq<int>>, own: map<int, Place>, lo: int, hi: int) {
    && (forall a, i :: 0 <= a < |ls| && 0 <= i < |ls[a]| ==> PlaceOk(ls, own, lo, hi, a, i))
    && (forall x :: lo <= x < hi ==> Placed(ls, own, x))
    && (forall x :: x in own ==> lo <= x < hi)
  }

  lemma OwnedIsPartition(ls: seq<seq<int>>, own: map<int, Place>, lo: int, hi: int)
    requires Owned(ls, own, lo, hi)
    ensures Partition(ls, lo, hi)
  {
    forall a, i | 0 <= a < |ls| && 0 <= i < |ls[a]|
      ensures lo <= ls[a][i] < hi && ls[a][i] in own && own[ls[a][i]] == Place(a, i)
    {
      assert PlaceOk(ls, own, lo, hi, a, i);
    }
    forall x | lo <= x < hi
      ensures Listed(ls, x)
    {
      assert Placed(ls, own, x);
    }
  }

  /** The head of list `a` moves to the end of list `b`. */
  function Move(ls: seq<seq<int>>, a: int, b: int): seq<seq<int>>
    requires 0 <= a < |ls| && 0 <= b < |ls| && a != b && ls[a] != []
  {
    ls[a := ls[a][1..]][b := ls[b] + [ls[a][0]]]
  }

  function MoveOwn(ls: seq<seq<int>>, own: map<int, Place>, a: int, b: int): map<int, Place>
    requires 0 <= b < |ls|
  {
    map x | x in own ::
      if own[x].list != a then own[x]
      else if own[x].idx == 0 then Place(b, |ls[b]|)
      else Place(a, own[x].idx - 1)
  }

  lemma MoveOwned(ls: seq<seq<int>>, own: map<int, Place>, a: int, b: int, lo: int, hi: int)
    requires 0 <= a < |ls| && 0 <= b < |ls| && a != b && ls[a] != [] && Owned(ls, own, lo, hi)
    ensures Owned(Move(ls, a, b), MoveOwn(ls, own, a, b), lo, hi)
  {
    var ls', own' := Move(ls, a, b), MoveOwn(ls, own, a, b);
    forall c, i | 0 <= c < |ls'| && 0 <= i < |ls'[c]|
      ensures PlaceOk(ls', own', lo, hi, c, i)
    {
      MovedBack(ls, a, b, c, i);
      if c == a {
        assert PlaceOk(ls, own, lo, hi, a, i + 1);
      } else if c == b && i == |ls[b]| {
        assert PlaceOk(ls, own, lo, hi, a, 0);
      } else {
        assert PlaceOk(ls, own, lo, hi, c, i);
      }
    }
    forall x | lo <= x < hi
      ensures Placed(ls', own', x)
    {
      assert Placed(ls, own, x);
    }
  }

  /** Where the element now at place `i` of list `c` was before the move. */
  lemma MovedBack(ls: seq<seq<int>>, a: int, b: int, c: int, i: int)
    requires 0 <= a < |ls| && 0 <= b < |ls| && a != b && ls[a] != []
    requires 0 <= c < |ls| && 0 <= i < |Move(ls, a, b)[c]|
    ensures c == a ==> i + 1 < |ls[a]| && Move(ls, a, b)[c][i] == ls[a][i + 1]
    ensures c == b && i == |ls[b]| ==> Move(ls, a, b)[c][i] == ls[a][0]
    ensures c != a && !(c == b && i == |ls[b]|) ==> i < |ls[c]| && Move(ls, a, b)[c][i] == ls[c][i]
  {
  }

  /** A list of distinct numbers below a bound is no longer than the bound. */
  lemma {:induction false} DistinctBound(l: seq<int>, lo: int, hi: int)
    requires lo <= hi
    requires forall i :: 0 <= i < |l| ==> lo <= l[i] < hi
    requires forall i, j :: 0 <= i < |l| && 0 <= j < |l| && l[i] == l[j] ==> i == j
    ensures |l| <= hi - lo
    decreases hi - lo
  {
    if l == [] {
    } else if k :| 0 <= k < |l| && l[k] == hi - 1 {
      DistinctBound(l[..k] + l[k + 1..], lo, hi - 1);
    } else {
      assert lo <= l[0] < hi;
      DistinctBound(l, lo, hi - 1);
    }
  }

  // ---- The invariant ---------------------------------------------------------------

  function At(l: seq<int>, k: nat): int { if k < |l| then l[k] else -1 }

  /** `n` units of `d` bytes are just enough for `size` bytes: `n` is `size / d` rounded up. */
  predicate JustHold(n: int, d: int, size: int) {
    d * n - d < size <= d * n
  }

  /** `b` is what index block number `q` of a file must say. */
  ghost predicate Says(b: IBlk, chain: seq<int>, blocks: seq<int>, q: nat) {
    && b.next == At(chain, q + 1) && b.offset == LF_IDATA * q && |b.dba| == LF_IBLEN
    && forall i :: 0 <= i < LF_IBLEN ==> b.dba[i] == At(blocks, 16 * q + i)
  }

  ghost predicate Shape(s: St) {
    && 1 <= s.lay.lo <= s.lay.hi <= 0x80_0000
    && |s.ibs| == 7 * (s.lay.lo - 1) && |s.db| == s.lay.hi - s.lay.lo
    && |s.cbs| == NLFL && |s.lay.il| == |s.lay.dl| == FREEL + 1 && |s.lay.opener| == LF_NUM_DIR_ENT
    && |s.dir.files| == LF_NUM_DIR_ENT && 0 <= s.dir.nfiles <= LF_NUM_DIR_ENT
    && Owned(s.lay.il, s.lay.iown, 0, |s.ibs|)
    && Owned(s.lay.dl, s.lay.down, s.lay.lo, s.lay.hi)
  }

  /** Free index block `k` links to the next one. */
  ghost predicate ILink(ibs: seq<IBlk>, l: seq<int>, k: nat) {
    k < |l| && 0 <= l[k] < |ibs| && ibs[l[k]].next == At(l, k + 1)
  }

  ghost predicate DLink(db: seq<Sector>, lo: int, l: seq<int>, k: nat) {
    k < |l| && 0 <= l[k] - lo < |db| && NextDb(db[l[k] - lo]) == At(l, k + 1)
  }

  /** The number, range and place of one block. */
  lemma IbPlace(s: St, f: int, q: int)
    requires Shape(s) && 0 <= f <= FREEL && 0 <= q < |s.lay.il[f]|
    ensures 0 <= s.lay.il[f][q] < |s.ibs| && s.lay.il[f][q] in s.lay.iown && s.lay.iown[s.lay.il[f][q]] == Place(f, q)
  {
    assert PlaceOk(s.lay.il, s.lay.iown, 0, |s.ibs|, f, q);
  }

  lemma DbPlace(s: St, f: int, b: int)
    requires Shape(s) && 0 <= f <= FREEL && 0 <= b < |s.lay.dl[f]|
    ensures s.lay.lo <= s.lay.dl[f][b] < s.lay.hi && s.lay.dl[f][b] in s.lay.down
    ensures s.lay.down[s.lay.dl[f][b]] == Place(f, b)
  {
    assert PlaceOk(s.lay.dl, s.lay.down, s.lay.lo, s.lay.hi, f, b);
  }

  /** The free lists as they are linked on the disk. */
  ghost predicate FreeLists(s: St)
    requires Shape(s)
  {
    && s.dir.ifree == At(s.lay.il[FREEL], 0)
    && s.dir.dfree == At(s.lay.dl[FREEL], 0)
    && (forall k :: 0 <= k < |s.lay.il[FREEL]| ==> ILink(s.ibs, s.lay.il[FREEL], k))
    && (forall k :: 0 <= k < |s.lay.dl[FREEL]| ==> DLink(s.db, s.lay.lo, s.lay.dl[FREEL], k))
  }

  ghost predicate Openers(s: St)
    requires Shape(s)
  {
    && (forall m :: 0 <= m < NLFL && s.cbs[m].used ==>
        0 <= s.cbs[m].file < s.dir.nfiles && s.lay.opener[s.cbs[m].file] == m)
    && (forall f :: 0 <= f < LF_NUM_DIR_ENT ==>
          s.lay.opener[f] == -1
          || (0 <= s.lay.opener[f] < NLFL && s.cbs[s.lay.opener[f]].used && s.cbs[s.lay.opener[f]].file == f))
  }

  ghost predicate Entries(s: St)
    requires Shape(s)
  {
    && (forall f :: 0 <= f < s.dir.nfiles ==>
          s.dir.files[f].ilist == At(s.lay.il[f], 0) && |s.lay.dl[f]| <= 16 * |s.lay.il[f]|)
    && (forall f :: s.dir.nfiles <= f < LF_NUM_DIR_ENT ==> s.lay.il[f] == [] && s.lay.dl[f] == [])
  }

  /** Index block `q` of file `f` is right on the disk, unless its opener holds a newer one. */
  ghost predicate BlockOk(s: St, f: int, q: int)
    requires Shape(s) && Openers(s) && 0 <= f < LF_NUM_DIR_ENT && 0 <= q < |s.lay.il[f]|
  {
    IbPlace(s, f, q);
    var m, j := s.lay.opener[f], s.lay.il[f][q];
    (m >= 0 && s.cbs[m].ibdirty && s.cbs[m].inum == j) || Says(s.ibs[j], s.lay.il[f], s.lay.dl[f], q)
  }

  ghost predicate OnDisk(s: St)
    requires Shape(s) && Openers(s)
  {
    forall f, q :: 0 <= f < LF_NUM_DIR_ENT && 0 <= q < |s.lay.il[f]| ==> BlockOk(s, f, q)
  }

  /** The cached index block of a control block, for a file with these blocks. */
  ghost predicate IbCache(c: Cb, chain: seq<int>, blocks: seq<int>) {
    if c.inum == -1 then
      c.dnum == -1 && !c.ibdirty
    else
      var q := c.iblk.offset / LF_IDATA;
      0 <= q < |chain| && c.inum == chain[q] && Says(c.iblk, chain, blocks, q)
  }

  /** The byte pointer, when it is inside the buffer, is where the position says. */
  ghost predicate Pointer(c: Cb, blocks: seq<int>) {
    && Uint32(c.pos) && 0 <= c.at <= LF_BLKSIZ
    && (c.at < LF_BLKSIZ ==>
          && c.inum != -1 && c.dnum != -1 && c.iblk.offset == c.pos / LF_IDATA * LF_IDATA
          && c.pos / LF_BLKSIZ < |blocks| && c.dnum == blocks[c.pos / LF_BLKSIZ] && c.at == c.pos % LF_BLKSIZ)
  }

  /** The cached data block belongs to the file and, when clean, equals the disk. */
  ghost predicate DbCache(s: St, c: Cb)
    requires Shape(s)
  {
    if c.dnum == -1 then
      !c.dbdirty
    else
      && c.dnum in s.lay.down && s.lay.down[c.dnum].list == c.file && s.lay.lo <= c.dnum < s.lay.hi
      && (c.dbdirty || s.db[c.dnum - s.lay.lo] == c.dblk)
  }

  ghost predicate CbOk(s: St, m: int)
    requires Shape(s) && Openers(s) && 0 <= m < NLFL && s.cbs[m].used
  {
    var c := s.cbs[m];
    IbCache(c, s.lay.il[c.file], s.lay.dl[c.file]) && Pointer(c, s.lay.dl[c.file]) && DbCache(s, c)
  }

  ghost predicate Cached(s: St)
    requires Shape(s) && Openers(s)
  {
    forall m :: 0 <= m < NLFL && s.cbs[m].used ==> CbOk(s, m)
  }

  /** The block structure: true at every step inside an operation as well. */
  ghost predicate StInv(s: St) {
    Shape(s) && FreeLists(s) && Openers(s) && Entries(s) && OnDisk(s) && Cached(s)
  }

  ghost predicate SizesOk(s: St)
    requires StInv(s)
  {
    && (forall f :: 0 <= f < s.dir.nfiles ==>
          JustHold(|s.lay.il[f]|, LF_IDATA, s.dir.files[f].size)
          && JustHold(|s.lay.dl[f]|, LF_BLKSIZ, s.dir.files[f].size)
          && Uint32(s.dir.files[f].size))
    && (forall m :: 0 <= m < NLFL && s.cbs[m].used ==> s.cbs[m].pos <= s.dir.files[s.cbs[m].file].size)
  }

  // ---- What a file contains --------------------------------------------------------

  /** Data block `b` of file `f`: the opener's buffer if it holds it, else the disk. */
  function View(s: St, f: int, b: int): Sector
    requires StInv(s) && 0 <= f < LF_NUM_DIR_ENT && 0 <= b < |s.lay.dl[f]|
  {
    DbPlace(s, f, b);
    var m, d := s.lay.opener[f], s.lay.dl[f][b];
    if m >= 0 && s.cbs[m].dnum == d then s.cbs[m].dblk else s.db[d - s.lay.lo]
  }

  /** The first `n` bytes of file `f`. */
  function Bytes(s: St, f: int, n: nat): (bs: seq<byte>)
    requires StInv(s) && 0 <= f < LF_NUM_DIR_ENT && n <= LF_BLKSIZ * |s.lay.dl[f]|
    ensures |bs| == n
  {
    if n == 0 then [] else Bytes(s, f, n - 1) + [View(s, f, (n - 1) / LF_BLKSIZ)[(n - 1) % LF_BLKSIZ]]
  }

  /** The contents of file `f` as a plain byte sequence. */
  function FileBytes(s: St, f: int): (bs: seq<byte>)
    requires StInv(s) && SizesOk(s) && 0 <= f < s.dir.nfiles
    ensures |bs| == s.dir.files[f].size
  {
    Bytes(s, f, s.dir.files[f].size)
  }

  lemma {:induction false} BytesAt(s: St, f: int, n: nat, k: nat)
    requires StInv(s) && 0 <= f < LF_NUM_DIR_ENT && k < n <= LF_BLKSIZ * |s.lay.dl[f]|
    ensures Bytes(s, f, n)[k] == View(s, f, k / LF_BLKSIZ)[k % LF_BLKSIZ]
  {
    if k < n - 1 {
      BytesAt(s, f, n - 1, k);
    }
  }

  /** Byte `k` of the file is byte `k % 512` of its data block `k / 512`. */
  lemma FileByteAt(s: St, f: int, k: nat)
    requires StInv(s) && SizesOk(s) && 0 <= f < s.dir.nfiles && k < s.dir.files[f].size
    ensures k / LF_BLKSIZ < |s.lay.dl[f]|
    ensures FileBytes(s, f)[k] == View(s, f, k / LF_BLKSIZ)[k % LF_BLKSIZ]
  {
    BytesAt(s, f, s.dir.files[f].size, k);
  }

  /** No byte of any file differs between `s` and `t`, as far as `s` has blocks. */
  ghost predicate SameView(s: St, t: St)
    requires StInv(s) && StInv(t)
  {
    && s.dir.nfiles <= t.dir.nfiles
    && (forall f :: 0 <= f < LF_NUM_DIR_ENT ==> |s.lay.dl[f]| <= |t.lay.dl[f]|)
    && forall f, b :: 0 <= f < LF_NUM_DIR_ENT && 0 <= b < |s.lay.dl[f]| ==> View(t, f, b) == View(s, f, b)
  }

  lemma SameBytes(s: St, t: St, f: int)
    requires StInv(s) && SizesOk(s) && StInv(t) && SizesOk(t) && SameView(s, t) && 0 <= f < s.dir.nfiles
    requires t.dir.files[f].size == s.dir.files[f].size
    ensures FileBytes(t, f) == FileBytes(s, f)
  {
    forall k | 0 <= k < s.dir.files[f].size
      ensures FileBytes(t, f)[k] == FileBytes(s, f)[k]
    {
      FileByteAt(s, f, k);
      FileByteAt(t, f, k);
    }
  }
}
