/** What holds while lfsetup moves the caches of one control block to its position, and
    what holds when it returns. */
module LfsSetup {
  import opened Common
  import opened LfsLayout
  import opened LfsState
  import opened LfsSteps

  /** The first state after both dirty blocks have been written. */
  ghost function Flushed(s: St, m: int): St
    requires OpenAt(s, m)
  {
    var a := if s.cbs[m].dbdirty then WriteDb(s, m) else s;
    if s.cbs[m].dbdirty then (WriteDbInv(s, m); if a.cbs[m].ibdirty then WriteIb(a, m) else a)
    else if s.cbs[m].ibdirty then WriteIb(s, m) else s
  }

  lemma FlushedInv(s: St, m: int)
    requires OpenAt(s, m)
    ensures OpenAt(Flushed(s, m), m) && SameView(s, Flushed(s, m))
    ensures Flushed(s, m).dir == s.dir && Flushed(s, m).lay == s.lay
    ensures Flushed(s, m).cbs == s.cbs[m := s.cbs[m].(ibdirty := false, dbdirty := false)]
  {
    if s.cbs[m].dbdirty {
      WriteDbInv(s, m);
      if s.cbs[m].ibdirty {
        WriteIbInv(WriteDb(s, m), m);
      }
    } else if s.cbs[m].ibdirty {
      WriteIbInv(s, m);
    }
  }

  ghost predicate SameSizes(d: Dir, e: Dir) {
    && e.nfiles == d.nfiles && |e.files| == |d.files|
    && forall g :: 0 <= g < |d.files| ==> e.files[g].size == d.files[g].size && e.files[g].name == d.files[g].name
  }

  /** Free blocks are there for the position if the file has none for it yet. */
  ghost predicate Room(s: St, m: int)
    requires OpenAt(s, m)
  {
    var c := s.cbs[m];
    c.pos == s.dir.files[c.file].size ==>
      && (c.pos % LF_IDATA == 0 ==> s.lay.il[FREEL] != [])
      && (c.pos % LF_BLKSIZ == 0 ==> s.lay.dl[FREEL] != [])
  }

  ghost predicate Start(s: St, m: int) {
    OpenAt(s, m) && SizesOk(s) && Room(s, m) && s.cbs[m].at == LF_BLKSIZ
  }

  /** `s` differs from `s0` by what lfsetup may do before the data block is in place:
      only control block `m` moved, and at most one index block was taken. */
  ghost predicate Walking(s0: St, s: St, m: int) {
    && Start(s0, m) && OpenAt(s, m) && SameView(s0, s) && SameSizes(s0.dir, s.dir)
    && s.cbs == s0.cbs[m := s0.cbs[m].(inum := s.cbs[m].inum, iblk := s.cbs[m].iblk, ibdirty := s.cbs[m].ibdirty,
                                       dnum := s.cbs[m].dnum, dbdirty := false)]
    && (var c := s.cbs[m];
        && (if c.ibdirty then
              && c.pos == s.dir.files[c.file].size && c.pos % LF_IDATA == 0
              && s0.lay.il[FREEL] != [] && s.lay == IbTaken(s0.lay, c.file)
            else
              s.lay == s0.lay && s.dir == s0.dir))
  }

  /** In the loop there is an index block at or before the position, and a new one is the last. */
  ghost predicate InLoop(s0: St, s: St, m: int) {
    && Walking(s0, s, m)
    && (var c := s.cbs[m];
        && c.inum != LF_INULL && c.iblk.offset <= c.pos && (c.ibdirty ==> c.iblk.offset == c.pos))
  }

  /** The position is before the end of the file, so that lfsetup will not allocate. */
  ghost predicate Inside(s: St, m: int) {
    OpenAt(s, m) && s.cbs[m].pos < s.dir.files[s.cbs[m].file].size
  }

  lemma AfterFlush(s0: St, m: int)
    requires Start(s0, m)
    ensures Walking(s0, Flushed(s0, m), m) && Settled(Flushed(s0, m), m)
  {
    FlushedInv(s0, m);
  }

  lemma SameViewTransitive(a: St, b: St, c: St)
    requires StInv(a) && StInv(b) && StInv(c) && SameView(a, b) && SameView(b, c)
    ensures SameView(a, c)
  {
    forall f, k | 0 <= f < LF_NUM_DIR_ENT && 0 <= k < |a.lay.dl[f]|
      ensures View(c, f, k) == View(a, f, k)
    {
      assert |a.lay.dl[f]| <= |b.lay.dl[f]| <= |c.lay.dl[f]|;
      assert View(b, f, k) == View(a, f, k);
    }
  }

  /** An index block that exists is fetched from the disk. */
  lemma Fetched(s0: St, s: St, m: int, q: int, drop: bool)
    requires Walking(s0, s, m) && !s.cbs[m].ibdirty
    requires 0 <= q < |s.lay.il[s.cbs[m].file]| && LF_IDATA * q <= s.cbs[m].pos
    ensures Settled(s, m) && InLoop(s0, LoadIb(s, m, q, drop), m)
  {
    LoadIbInv(s, m, q, drop);
    IbPlace(s, s.cbs[m].file, q);
    SameViewTransitive(s0, s, LoadIb(s, m, q, drop));
  }

  /** The file was empty, so its first index block is taken. */
  lemma TookFirst(s0: St, s: St, m: int)
    requires Walking(s0, s, m) && !s.cbs[m].ibdirty && s.cbs[m].inum == LF_INULL && s.lay.il[s.cbs[m].file] == []
    ensures s.lay.il[FREEL] != [] && Settled(s, m) && InLoop(s0, NewFirst(s, m), m)
  {
    hide View, OnDisk, FreeLists, Entries;
    assert CbOk(s, m);
    assert s.dir.files[s.cbs[m].file].size == 0;
    NewFirstInv(s, m);
    SameViewTransitive(s0, s, NewFirst(s, m));
  }

  /** The position is past the last index block: the chain grows by one. */
  lemma TookNext(s0: St, s: St, m: int)
    requires InLoop(s0, s, m) && s.cbs[m].iblk.next == LF_INULL
    requires s.cbs[m].pos - s.cbs[m].pos % LF_IDATA > s.cbs[m].iblk.offset
    ensures s.lay.il[FREEL] != [] && Settled(s, m) && InLoop(s0, NewNext(s, m), m)
    ensures NewNext(s, m).cbs[m].iblk.offset == s.cbs[m].pos
  {
    LastOfChain(s, m);
    var c := s.cbs[m];
    assert c.pos <= s.dir.files[c.file].size;
    assert c.pos == LF_IDATA * |s.lay.il[c.file]|;
    NewNextInv(s, m);
    SameViewTransitive(s0, s, NewNext(s, m));
  }

  /** No block is lost: what file `f` gains the free lists lose. */
  ghost predicate FreeKept(a: Layout, b: Layout, f: int) {
    && 0 <= f < FREEL < |a.il| == |b.il| && |a.dl| == |b.dl| == |a.il|
    && |b.il[f]| + |b.il[FREEL]| == |a.il[f]| + |a.il[FREEL]|
    && |b.dl[f]| + |b.dl[FREEL]| == |a.dl[f]| + |a.dl[FREEL]|
  }

  /** The result of lfsetup: the buffer holds the block of the position.  When the
      position is the end of a full block the buffer is new and not yet on the disk, so
      the block structure holds once it is marked dirty. */
  ghost predicate SetUp(s0: St, s: St, m: int) {
    && Start(s0, m) && |s.cbs| == NLFL && OpenAt(Dirtied(s, m), m)
    && SameView(s0, Dirtied(s, m)) && SameSizes(s0.dir, s.dir)
    && (var c0, c := s0.cbs[m], s.cbs[m];
        && s.cbs == s0.cbs[m := c0.(inum := c.inum, iblk := c.iblk, ibdirty := c.ibdirty,
                                    dnum := c.dnum, dblk := c.dblk, dbdirty := false, at := c.pos % LF_BLKSIZ)]
        && FreeKept(s0.lay, s.lay, c.file)
        && |s.lay.il[c.file]| == Max(|s0.lay.il[c.file]|, c.pos / LF_IDATA + 1)
        && |s.lay.dl[c.file]| == Max(|s0.lay.dl[c.file]|, c.pos / LF_BLKSIZ + 1)
        && (forall g :: 0 <= g < LF_NUM_DIR_ENT && g != c.file ==>
            s.lay.il[g] == s0.lay.il[g] && s.lay.dl[g] == s0.lay.dl[g])
        && (c.pos < s0.dir.files[c.file].size ==> StInv(s) && s.lay == s0.lay && s.dir == s0.dir))
  }

  /** The index block covers the position, and its entry for the position says whether
      the file already has the data block. */
  ghost predicate Covered(s0: St, s: St, m: int) {
    && InLoop(s0, s, m) && |s.cbs[m].iblk.dba| == LF_IBLEN
    && s.cbs[m].iblk.offset == s.cbs[m].pos / LF_IDATA * LF_IDATA
    && (var c := s.cbs[m];
        var dnum, b := c.iblk.dba[c.pos % LF_IDATA / LF_BLKSIZ], c.pos / LF_BLKSIZ;
        && c.pos / LF_IDATA < |s.lay.il[c.file]| && b <= |s.lay.dl[c.file]|
        && (dnum == LF_DNULL <==> b == |s.lay.dl[c.file]|)
        && (dnum != LF_DNULL ==> dnum == s.lay.dl[c.file][b] && !c.ibdirty && s.lay.lo <= dnum < s.lay.hi)
        && (dnum == LF_DNULL ==> c.pos == s.dir.files[c.file].size && c.pos % LF_BLKSIZ == 0))
  }

  lemma LoopDone(s0: St, s: St, m: int)
    requires InLoop(s0, s, m) && s.cbs[m].pos - s.cbs[m].pos % LF_IDATA <= s.cbs[m].iblk.offset
    ensures Covered(s0, s, m)
  {
    assert CbOk(s, m);
    var c := s.cbs[m];
    var i, b := c.pos % LF_IDATA / LF_BLKSIZ, c.pos / LF_BLKSIZ;
    assert b == 16 * (c.pos / LF_IDATA) + i;
    if b < |s.lay.dl[c.file]| {
      DbPlace(s, c.file, b);
    }
  }

  lemma FillFromDisk(s0: St, s: St, m: int)
    requires Covered(s0, s, m) && s.cbs[m].iblk.dba[s.cbs[m].pos % LF_IDATA / LF_BLKSIZ] != LF_DNULL
    ensures Settled(s, m) && SetUp(s0, LoadDb(s, m), m)
  {
    hide OnDisk, View, SizesOk, SameView, Entries, SameSizes, Pointer, DbCache;
    var t := LoadDb(s, m);
    LoadDbInv(s, m);
    assert CbOk(s, m) && CbOk(t, m);
    DirtiedInv(t, m);
    SameViewTransitive(s0, s, t);
    SameViewTransitive(s0, t, Dirtied(t, m));
  }

  /** A block that is in the buffer already is the one on the disk. */
  lemma InBuffer(s0: St, s: St, m: int)
    requires Covered(s0, s, m) && s.cbs[m].iblk.dba[s.cbs[m].pos % LF_IDATA / LF_BLKSIZ] != LF_DNULL
    ensures Settled(s, m)
    ensures s.cbs[m].dnum == LoadDb(s, m).cbs[m].dnum ==> s.cbs[m].dblk == LoadDb(s, m).cbs[m].dblk
  {
    assert CbOk(s, m);
    DbPlace(s, s.cbs[m].file, s.cbs[m].pos / LF_BLKSIZ);
  }

  function Undirtied(s: St, m: int): St
    requires 0 <= m < |s.cbs|
  {
    WithCb(s, m, s.cbs[m].(dbdirty := false))
  }

  lemma FillNew(s0: St, s: St, m: int)
    requires Covered(s0, s, m) && s.cbs[m].iblk.dba[s.cbs[m].pos % LF_IDATA / LF_BLKSIZ] == LF_DNULL
    ensures AtEnd(s, m) && SetUp(s0, Undirtied(NewDb(s, m), m), m)
  {
    hide Cached, View;
    var t := NewDb(s, m);
    NewDbInv(s, m);
    NewDbShape(s, m);
    assert Dirtied(Undirtied(t, m), m) == t;
    SameViewTransitive(s0, s, t);
  }

  // ---- lflputc and lflgetc after lfsetup ---------------------------------------------

  /** A file never outgrows 32 bits: its blocks are distinct sectors of the disk. */
  lemma PositionFits(s: St, m: int)
    requires OpenAt(s, m) && s.cbs[m].at < LF_BLKSIZ
    ensures Uint32(s.cbs[m].pos + 1)
  {
    assert CbOk(s, m);
    var f := s.cbs[m].file;
    var l := s.lay.dl[f];
    forall i | 0 <= i < |l|
      ensures s.lay.lo <= l[i] < s.lay.hi
    {
      DbPlace(s, f, i);
    }
    forall i, j | 0 <= i < |l| && 0 <= j < |l| && l[i] == l[j]
      ensures i == j
    {
      DbPlace(s, f, i);
      DbPlace(s, f, j);
    }
    DistinctBound(l, s.lay.lo, s.lay.hi);
  }

  /** The state in which lflputc stores its byte: as lfsetup left it, or as it was when
      the byte pointer is already inside the buffer. */
  ghost predicate Ready(s0: St, s: St, m: int) {
    SetUp(s0, s, m) || (s == s0 && OpenAt(s0, m) && SizesOk(s0) && s0.cbs[m].at < LF_BLKSIZ)
  }

  lemma ReadyPrepared(s0: St, s: St, m: int)
    requires Ready(s0, s, m)
    ensures |s.cbs| == NLFL && s.cbs[m].at < LF_BLKSIZ && Prepared(s0, Dirtied(s, m), m)
  {
    if !SetUp(s0, s, m) {
      assert CbOk(s0, m);
      DirtiedInv(s0, m);
    }
    PositionFits(Dirtied(s, m), m);
  }

  /** lfsetup has provided exactly the blocks that the grown size needs. */
  lemma PutSizeOf(s0: St, s: St, m: int, ch: byte, g: int)
    requires SetUp(s0, s, m) && s.cbs[m].at < LF_BLKSIZ && StInv(PutStep(s, m, ch)) && 0 <= g < s.dir.nfiles
    requires Uint32(s.cbs[m].pos + 1)
    ensures var t := PutStep(s, m, ch);
            && JustHold(|t.lay.il[g]|, LF_IDATA, t.dir.files[g].size)
            && JustHold(|t.lay.dl[g]|, LF_BLKSIZ, t.dir.files[g].size)
            && Uint32(t.dir.files[g].size)
  {
  }

  lemma PutPositions(s0: St, s: St, m: int, ch: byte, i: int)
    requires Ready(s0, s, m) && |s.cbs| == NLFL && s.cbs[m].at < LF_BLKSIZ && OpenAt(PutStep(s, m, ch), m)
    requires 0 <= i < NLFL && PutStep(s, m, ch).cbs[i].used
    ensures PutStep(s, m, ch).cbs[i].pos <= PutStep(s, m, ch).dir.files[PutStep(s, m, ch).cbs[i].file].size
  {
  }

  lemma PutSizes(s0: St, s: St, m: int, ch: byte)
    requires Ready(s0, s, m) && |s.cbs| == NLFL && s.cbs[m].at < LF_BLKSIZ && OpenAt(PutStep(s, m, ch), m)
    requires Uint32(s.cbs[m].pos + 1)
    ensures SizesOk(PutStep(s, m, ch))
  {
    var t := PutStep(s, m, ch);
    forall i | 0 <= i < NLFL && t.cbs[i].used
      ensures t.cbs[i].pos <= t.dir.files[t.cbs[i].file].size
    {
      PutPositions(s0, s, m, ch, i);
    }
    if SetUp(s0, s, m) {
      forall g | 0 <= g < t.dir.nfiles
        ensures JustHold(|t.lay.il[g]|, LF_IDATA, t.dir.files[g].size)
        ensures JustHold(|t.lay.dl[g]|, LF_BLKSIZ, t.dir.files[g].size)
        ensures Uint32(t.dir.files[g].size)
      {
        PutSizeOf(s0, s, m, ch, g);
      }
    } else {
      PutSizesInPlace(s, m, ch);
    }
  }

  /** Without lfsetup the byte lies in a block that the file already has. */
  lemma PutSizesInPlace(s: St, m: int, ch: byte)
    requires OpenAt(s, m) && SizesOk(s) && s.cbs[m].at < LF_BLKSIZ && OpenAt(PutStep(s, m, ch), m)
    requires Uint32(s.cbs[m].pos + 1)
    ensures SizesOk(PutStep(s, m, ch))
  {
    assert CbOk(s, m);
  }

  /** lflputc as a whole: one byte of one file is overwritten or appended. */
  lemma PutDone(s0: St, s: St, m: int, ch: byte)
    requires Good(s0) && Ready(s0, s, m)
    ensures |s.cbs| == NLFL && s.cbs[m].at < LF_BLKSIZ && 0 <= s.cbs[m].file < |s.dir.files|
    ensures Good(PutStep(s, m, ch))
    ensures forall g :: 0 <= g < s0.dir.nfiles ==>
              FileBytes(PutStep(s, m, ch), g) ==
              if g == s0.cbs[m].file then PutAt(FileBytes(s0, g), s0.cbs[m].pos, ch) else FileBytes(s0, g)
  {
    PutKeeps(s0, s, m, ch);
    PutNames(s0, s, m, ch);
    PutBytes(s0, Dirtied(s, m), m, ch);
  }

  lemma PutKeeps(s0: St, s: St, m: int, ch: byte)
    requires Ready(s0, s, m)
    ensures |s.cbs| == NLFL && s.cbs[m].at < LF_BLKSIZ && OpenAt(PutStep(s, m, ch), m) && SizesOk(PutStep(s, m, ch))
    ensures 0 <= s.cbs[m].file < |s.dir.files| && PutStep(Dirtied(s, m), m, ch) == PutStep(s, m, ch)
    ensures Prepared(s0, Dirtied(s, m), m)
  {
    ReadyPrepared(s0, s, m);
    var d := Dirtied(s, m);
    assert PutStep(d, m, ch) == PutStep(s, m, ch);
    PutStepInv(d, m, ch);
    PutSizes(s0, s, m, ch);
  }

  lemma PutNames(s0: St, s: St, m: int, ch: byte)
    requires NamesOk(s0.dir, s0.cbs) && Ready(s0, s, m) && |s.cbs| == NLFL && s.cbs[m].at < LF_BLKSIZ
    ensures NamesOk(PutStep(s, m, ch).dir, PutStep(s, m, ch).cbs)
  {
    NamesKept(s0, PutStep(s, m, ch));
  }

  /** Before the end of the file lfsetup only moves caches. */
  lemma GetReady(s0: St, s: St, m: int)
    requires StInv(s0) && SizesOk(s0) && Ready(s0, s, m) && s0.cbs[m].pos < s0.dir.files[s0.cbs[m].file].size
    ensures OpenAt(s, m) && SizesOk(s) && SameView(s0, s) && s.dir == s0.dir && s.lay == s0.lay
    ensures s.cbs[m].at < LF_BLKSIZ && Uint32(s.cbs[m].pos + 1)
    ensures s.cbs[m].pos == s0.cbs[m].pos && s.cbs[m].file == s0.cbs[m].file
  {
    hide FreeLists, Entries, SameSizes, Cached, FreeKept;
    ReadyPrepared(s0, s, m);
    forall f, b | 0 <= f < LF_NUM_DIR_ENT && 0 <= b < |s0.lay.dl[f]|
      ensures View(s, f, b) == View(s0, f, b)
    {
      assert View(Dirtied(s, m), f, b) == View(s0, f, b);
    }
  }

  lemma GetSizes(s: St, m: int)
    requires OpenAt(s, m) && SizesOk(s) && s.cbs[m].at < LF_BLKSIZ && s.cbs[m].pos < s.dir.files[s.cbs[m].file].size
    requires Uint32(s.cbs[m].pos + 1)
    ensures OpenAt(GetStep(s, m), m) && SizesOk(GetStep(s, m))
    ensures forall g :: 0 <= g < s.dir.nfiles ==> FileBytes(GetStep(s, m), g) == FileBytes(s, g)
  {
    GetStepInv(s, m);
    forall g | 0 <= g < s.dir.nfiles
      ensures FileBytes(GetStep(s, m), g) == FileBytes(s, g)
    {
      SameBytes(s, GetStep(s, m), g);
    }
  }

  /** lflgetc as a whole: the byte at the position, and no file changes. */
  lemma GetDone(s0: St, s: St, m: int)
    requires Good(s0) && Ready(s0, s, m) && s0.cbs[m].pos < s0.dir.files[s0.cbs[m].file].size
    ensures |s.cbs| == NLFL && s.cbs[m].at < LF_BLKSIZ
    ensures Good(GetStep(s, m)) && s.cbs[m].dblk[s.cbs[m].at] == FileBytes(s0, s0.cbs[m].file)[s0.cbs[m].pos]
    ensures forall g :: 0 <= g < s0.dir.nfiles ==> FileBytes(GetStep(s, m), g) == FileBytes(s0, g)
  {
    GetReady(s0, s, m);
    GetSizes(s, m);
    PointedByte(s, m);
    forall g | 0 <= g < s0.dir.nfiles
      ensures FileBytes(s, g) == FileBytes(s0, g)
    {
      SameBytes(s0, s, g);
    }
    GetNames(s0, s, m);
  }

  lemma GetNames(s0: St, s: St, m: int)
    requires NamesOk(s0.dir, s0.cbs) && Ready(s0, s, m) && s.dir == s0.dir
    ensures |s.cbs| == NLFL && NamesOk(GetStep(s, m).dir, GetStep(s, m).cbs)
  {
    NamesKept(s0, GetStep(s, m));
  }

  /** A cached index block can be written: its numbers fit their 32-bit fields. */
  lemma CachedIbFits(s: St, m: int)
    requires OpenAt(s, m) && s.cbs[m].inum != LF_INULL && Uint32(s.cbs[m].iblk.offset)
    ensures WfIb(s.cbs[m].iblk) && 0 <= s.cbs[m].inum < |s.ibs|
  {
    assert CbOk(s, m);
    var c := s.cbs[m];
    var q := c.iblk.offset / LF_IDATA;
    IbPlace(s, c.file, q);
    if q + 1 < |s.lay.il[c.file]| {
      IbPlace(s, c.file, q + 1);
    }
    forall i | 0 <= i < LF_IBLEN
      ensures Int32(c.iblk.dba[i])
    {
      if 16 * q + i < |s.lay.dl[c.file]| {
        DbPlace(s, c.file, 16 * q + i);
      }
    }
  }

  lemma OffsetFits(s: St, m: int)
    requires OpenAt(s, m) && SizesOk(s) && s.cbs[m].inum != LF_INULL
    ensures Uint32(s.cbs[m].iblk.offset)
  {
    assert CbOk(s, m);
  }

  lemma HeadOfChain(s: St, f: int)
    requires StInv(s) && 0 <= f < s.dir.nfiles
    ensures s.dir.files[f].ilist == LF_INULL <==> s.lay.il[f] == []
    ensures s.lay.il[f] != [] ==> s.dir.files[f].ilist == s.lay.il[f][0]
  {
    if s.lay.il[f] != [] {
      IbPlace(s, f, 0);
    }
  }

  // ---- Free blocks for a whole write -------------------------------------------------

  /** The size of the file after `n` bytes have been written at the position. */
  function SizeAfter(s: St, m: int, n: nat): int
    requires 0 <= m < |s.cbs| && 0 <= s.cbs[m].file < |s.dir.files|
  {
    Max(s.dir.files[s.cbs[m].file].size, s.cbs[m].pos + n)
  }

  /** The free lists hold enough blocks to write `n` bytes at the position. */
  ghost predicate RoomFor(s: St, m: int, n: nat)
    requires OpenAt(s, m)
  {
    var f := s.cbs[m].file;
    && SizeAfter(s, m, n) <= LF_IDATA * (|s.lay.il[f]| + |s.lay.il[FREEL]|)
    && SizeAfter(s, m, n) <= LF_BLKSIZ * (|s.lay.dl[f]| + |s.lay.dl[FREEL]|)
  }

  lemma RoomForOne(s: St, m: int, n: nat)
    requires OpenAt(s, m) && SizesOk(s) && RoomFor(s, m, n + 1)
    ensures Room(s, m)
  {
    var c := s.cbs[m];
    var size := s.dir.files[c.file].size;
    if c.pos == size {
      if size % LF_IDATA == 0 {
        FullBlocks(|s.lay.il[c.file]|, LF_IDATA, size);
      }
      if size % LF_BLKSIZ == 0 {
        FullBlocks(|s.lay.dl[c.file]|, LF_BLKSIZ, size);
      }
    }
  }

  lemma FullBlocks(n: int, d: int, size: int)
    requires JustHold(n, d, size) && size % d == 0 && (d == LF_IDATA || d == LF_BLKSIZ)
    ensures d * n == size
  {
  }
}
