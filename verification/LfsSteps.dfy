/** The single steps that lfsetup, lflputc, lflgetc, lfflush and lftruncate are made of,
    as functions on the whole state, each with the lemma that it keeps the block
    structure and says what it does to the contents of every file. */
module LfsSteps {
  import opened Common
  import opened LfsLayout
  import opened LfsState

  function WithCb(s: St, m: int, c: Cb): St
    requires 0 <= m < |s.cbs|
  {
    s.(cbs := s.cbs[m := c])
  }

  /** An in-memory index block as lfibclear leaves it. */
  function Cleared(offset: int): IBlk {
    IBlk(LF_INULL, offset, seq(16, _ => LF_DNULL))
  }

  ghost predicate OpenAt(s: St, m: int) {
    StInv(s) && 0 <= m < NLFL && s.cbs[m].used
  }

  // ---- lfflush ---------------------------------------------------------------------

  ghost function WriteDb(s: St, m: int): St
    requires OpenAt(s, m) && s.cbs[m].dbdirty
  {
    assert CbOk(s, m);
    var c := s.cbs[m];
    WithCb(s.(db := s.db[c.dnum - s.lay.lo := c.dblk]), m, c.(dbdirty := false))
  }

  lemma WriteDbOnDisk(s: St, m: int)
    requires OpenAt(s, m) && s.cbs[m].dbdirty
    ensures var t := WriteDb(s, m); Shape(t) && FreeLists(t) && Openers(t) && OnDisk(t)
  {
    var t, free := WriteDb(s, m), s.lay.dl[FREEL];
    assert CbOk(s, m);
    forall k | 0 <= k < |free|
      ensures DLink(t.db, t.lay.lo, free, k)
    {
      assert DLink(s.db, s.lay.lo, free, k);
      DbPlace(s, FREEL, k);
    }
    forall f, q | 0 <= f < LF_NUM_DIR_ENT && 0 <= q < |s.lay.il[f]|
      ensures BlockOk(t, f, q)
    {
      assert BlockOk(s, f, q);
    }
  }

  lemma WriteDbInv(s: St, m: int)
    requires OpenAt(s, m) && s.cbs[m].dbdirty
    ensures StInv(WriteDb(s, m)) && SameView(s, WriteDb(s, m))
  {
    var t := WriteDb(s, m);
    WriteDbOnDisk(s, m);
    assert CbOk(s, m);
    forall i | 0 <= i < NLFL && t.cbs[i].used
      ensures CbOk(t, i)
    {
      assert CbOk(s, i);
    }
    forall f, b | 0 <= f < LF_NUM_DIR_ENT && 0 <= b < |s.lay.dl[f]|
      ensures View(t, f, b) == View(s, f, b)
    {
      DbPlace(s, f, b);
    }
  }

  ghost function WriteIb(s: St, m: int): St
    requires OpenAt(s, m) && s.cbs[m].ibdirty
  {
    assert CbOk(s, m);
    var c := s.cbs[m];
    IbPlace(s, c.file, c.iblk.offset / LF_IDATA);
    WithCb(s.(ibs := s.ibs[c.inum := c.iblk]), m, c.(ibdirty := false))
  }

  lemma WriteIbOnDisk(s: St, m: int)
    requires OpenAt(s, m) && s.cbs[m].ibdirty
    ensures var t := WriteIb(s, m); Shape(t) && FreeLists(t) && Openers(t) && OnDisk(t)
  {
    var t, free, c := WriteIb(s, m), s.lay.il[FREEL], s.cbs[m];
    assert CbOk(s, m);
    IbPlace(s, c.file, c.iblk.offset / LF_IDATA);
    forall k | 0 <= k < |free|
      ensures ILink(t.ibs, free, k)
    {
      assert ILink(s.ibs, free, k);
      IbPlace(s, FREEL, k);
    }
    forall f, q | 0 <= f < LF_NUM_DIR_ENT && 0 <= q < |s.lay.il[f]|
      ensures BlockOk(t, f, q)
    {
      assert BlockOk(s, f, q);
      IbPlace(s, f, q);
    }
  }

  lemma WriteIbInv(s: St, m: int)
    requires OpenAt(s, m) && s.cbs[m].ibdirty
    ensures StInv(WriteIb(s, m)) && SameView(s, WriteIb(s, m))
  {
    var t := WriteIb(s, m);
    WriteIbOnDisk(s, m);
    forall i | 0 <= i < NLFL && t.cbs[i].used
      ensures CbOk(t, i)
    {
      assert CbOk(s, i);
    }
  }

  // ---- lfsetup: moving the cached blocks -------------------------------------------

  /** Nothing cached by `m` is newer than the disk, and its byte pointer is invalid. */
  ghost predicate Settled(s: St, m: int) {
    OpenAt(s, m) && !s.cbs[m].ibdirty && !s.cbs[m].dbdirty && s.cbs[m].at == LF_BLKSIZ
  }

  /** Index block `q` of the file is read from the disk; `drop` forgets the data block. */
  ghost function LoadIb(s: St, m: int, q: int, drop: bool): St
    requires Settled(s, m) && 0 <= q < |s.lay.il[s.cbs[m].file]|
  {
    var c := s.cbs[m];
    IbPlace(s, c.file, q);
    var j := s.lay.il[c.file][q];
    WithCb(s, m, c.(iblk := s.ibs[j], inum := j, dnum := if drop then LF_DNULL else c.dnum))
  }

  lemma LoadIbOnDisk(s: St, m: int, q: int, drop: bool)
    requires Settled(s, m) && 0 <= q < |s.lay.il[s.cbs[m].file]|
    ensures var t := LoadIb(s, m, q, drop);
            Shape(t) && FreeLists(t) && Openers(t) && Entries(t) && OnDisk(t)
  {
    hide Cached, FreeLists, Entries;
    var t := LoadIb(s, m, q, drop);
    assert FreeLists(t) && Entries(t) by { LoadIbRest(s, t, m); }
    forall g, p | 0 <= g < LF_NUM_DIR_ENT && 0 <= p < |s.lay.il[g]|
      ensures BlockOk(t, g, p)
    {
      assert BlockOk(s, g, p);
    }
  }

  /** The free lists and the entries do not depend on the control blocks. */
  lemma LoadIbRest(s: St, t: St, m: int)
    requires Shape(s) && FreeLists(s) && Entries(s) && 0 <= m < |s.cbs| == |t.cbs|
    requires t == s.(cbs := s.cbs[m := t.cbs[m]])
    ensures Shape(t) && FreeLists(t) && Entries(t)
  {
  }

  lemma LoadIbCached(s: St, m: int, q: int, drop: bool)
    requires Settled(s, m) && 0 <= q < |s.lay.il[s.cbs[m].file]|
    requires Shape(LoadIb(s, m, q, drop)) && Openers(LoadIb(s, m, q, drop))
    ensures Cached(LoadIb(s, m, q, drop)) && LoadIb(s, m, q, drop).cbs[m].iblk.offset == LF_IDATA * q
  {
    hide FreeLists, Entries;
    var t, f := LoadIb(s, m, q, drop), s.cbs[m].file;
    assert CbOk(s, m) && BlockOk(s, f, q);
    IbPlace(s, f, q);
    forall i | 0 <= i < NLFL && t.cbs[i].used
      ensures CbOk(t, i)
    {
      assert CbOk(s, i);
    }
  }

  lemma LoadIbInv(s: St, m: int, q: int, drop: bool)
    requires Settled(s, m) && 0 <= q < |s.lay.il[s.cbs[m].file]|
    ensures Settled(LoadIb(s, m, q, drop), m) && SameView(s, LoadIb(s, m, q, drop))
    ensures LoadIb(s, m, q, drop).cbs[m].iblk.offset == LF_IDATA * q
  {
    hide FreeLists, Entries, OnDisk, Cached;
    LoadIbOnDisk(s, m, q, drop);
    LoadIbCached(s, m, q, drop);
    var t := LoadIb(s, m, q, drop);
    assert CbOk(s, m) by { CbOf(s, m); }
    forall g, b | 0 <= g < LF_NUM_DIR_ENT && 0 <= b < |s.lay.dl[g]|
      ensures View(t, g, b) == View(s, g, b)
    {
      DbPlace(s, g, b);
    }
  }

  lemma CbOf(s: St, m: int)
    requires Shape(s) && Openers(s) && Cached(s) && 0 <= m < NLFL && s.cbs[m].used
    ensures CbOk(s, m)
  {
  }

  /** The layout after the first free index block has become the last one of file `f`. */
  function IbTaken(lay: Layout, f: int): Layout
    requires 0 <= f < |lay.il| && FREEL < |lay.il| && f != FREEL && lay.il[FREEL] != []
  {
    lay.(il := Move(lay.il, FREEL, f), iown := MoveOwn(lay.il, lay.iown, FREEL, f))
  }

  function DbTaken(lay: Layout, f: int): Layout
    requires 0 <= f < |lay.dl| && FREEL < |lay.dl| && f != FREEL && lay.dl[FREEL] != []
  {
    lay.(dl := Move(lay.dl, FREEL, f), down := MoveOwn(lay.dl, lay.down, FREEL, f))
  }

  /** Taking the first free index block leaves a well-formed, properly linked free list. */
  lemma IbTakenFree(s: St, t: St, f: int)
    requires StInv(s) && 0 <= f < LF_NUM_DIR_ENT && s.lay.il[FREEL] != [] && t.lay == IbTaken(s.lay, f)
    requires |t.ibs| == |s.ibs| && t.db == s.db && |t.cbs| == NLFL
    requires |t.dir.files| == LF_NUM_DIR_ENT && t.dir.nfiles == s.dir.nfiles && t.dir.dfree == s.dir.dfree
    requires 0 <= s.lay.il[FREEL][0] < |s.ibs| && t.dir.ifree == s.ibs[s.lay.il[FREEL][0]].next
    requires forall k :: 0 <= k < |s.lay.il[FREEL]| ==>
               0 <= s.lay.il[FREEL][k] < |s.ibs| && t.ibs[s.lay.il[FREEL][k]] == s.ibs[s.lay.il[FREEL][k]]
    ensures Shape(t) && FreeLists(t)
    ensures t.lay.il[FREEL] == s.lay.il[FREEL][1..] && t.lay.il[f] == s.lay.il[f] + [s.lay.il[FREEL][0]]
    ensures forall g :: 0 <= g < LF_NUM_DIR_ENT && g != f ==> t.lay.il[g] == s.lay.il[g]
  {
    var free := s.lay.il[FREEL];
    MoveOwned(s.lay.il, s.lay.iown, FREEL, f, 0, |s.ibs|);
    assert ILink(s.ibs, free, 0);
    forall k | 0 <= k < |free[1..]|
      ensures ILink(t.ibs, free[1..], k)
    {
      assert ILink(s.ibs, free, k + 1);
    }
    forall k | 0 <= k < |t.lay.dl[FREEL]|
      ensures DLink(t.db, t.lay.lo, t.lay.dl[FREEL], k)
    {
      assert DLink(s.db, s.lay.lo, s.lay.dl[FREEL], k);
    }
  }

  lemma FreeIbs(s: St)
    requires Shape(s)
    ensures forall k :: 0 <= k < |s.lay.il[FREEL]| ==> 0 <= s.lay.il[FREEL][k] < |s.ibs|
  {
    forall k | 0 <= k < |s.lay.il[FREEL]|
      ensures 0 <= s.lay.il[FREEL][k] < |s.ibs|
    {
      IbPlace(s, FREEL, k);
    }
  }

  /** An empty file gets its first index block. */
  ghost function NewFirst(s: St, m: int): St
    requires Settled(s, m) && s.cbs[m].inum == LF_INULL && s.lay.il[s.cbs[m].file] == [] && s.lay.il[FREEL] != []
  {
    var c := s.cbs[m];
    var j := s.lay.il[FREEL][0];
    IbPlace(s, FREEL, 0);
    St(s.ibs, s.db,
       s.dir.(ifree := s.ibs[j].next, files := s.dir.files[c.file := s.dir.files[c.file].(ilist := j)]),
       s.cbs[m := c.(inum := j, iblk := Cleared(0), ibdirty := true)],
       IbTaken(s.lay, c.file))
  }

  lemma NewFirstShape(s: St, m: int)
    requires Settled(s, m) && s.cbs[m].inum == LF_INULL && s.lay.il[s.cbs[m].file] == [] && s.lay.il[FREEL] != []
    ensures var t := NewFirst(s, m); Shape(t) && FreeLists(t) && Openers(t) && Entries(t) && OnDisk(t)
    ensures NewFirst(s, m).lay.il[s.cbs[m].file] == [s.lay.il[FREEL][0]]
    ensures forall g :: 0 <= g < LF_NUM_DIR_ENT && g != s.cbs[m].file ==> NewFirst(s, m).lay.il[g] == s.lay.il[g]
  {
    var t, f := NewFirst(s, m), s.cbs[m].file;
    FreeIbs(s);
    IbTakenFree(s, t, f);
    forall g, p | 0 <= g < LF_NUM_DIR_ENT && 0 <= p < |t.lay.il[g]|
      ensures BlockOk(t, g, p)
    {
      if g != f {
        assert BlockOk(s, g, p);
      }
    }
  }

  lemma NewFirstInv(s: St, m: int)
    requires Settled(s, m) && s.cbs[m].inum == LF_INULL && s.lay.il[s.cbs[m].file] == [] && s.lay.il[FREEL] != []
    ensures OpenAt(NewFirst(s, m), m) && SameView(s, NewFirst(s, m))
  {
    hide Openers, FreeLists;
    var t := NewFirst(s, m);
    NewFirstShape(s, m);
    IbPlace(s, FREEL, 0);
    forall i | 0 <= i < NLFL && t.cbs[i].used
      ensures CbOk(t, i)
    {
      assert CbOk(s, i);
    }
  }

  /** A cached block without a successor is the last one of the file. */
  lemma LastOfChain(s: St, m: int)
    requires Settled(s, m) && s.cbs[m].inum != LF_INULL
    ensures var c := s.cbs[m]; var chain := s.lay.il[c.file];
            && 0 < |chain| && 0 <= c.iblk.offset / LF_IDATA < |chain|
            && c.inum == chain[c.iblk.offset / LF_IDATA] && 0 <= c.inum < |s.ibs|
            && (c.iblk.next == LF_INULL <==> c.iblk.offset == LF_IDATA * (|chain| - 1))
            && (c.iblk.next != LF_INULL ==> c.iblk.offset / LF_IDATA + 1 < |chain|
                                            && c.iblk.next == chain[c.iblk.offset / LF_IDATA + 1])
  {
    assert CbOk(s, m);
    var c := s.cbs[m];
    var q := c.iblk.offset / LF_IDATA;
    IbPlace(s, c.file, q);
    if q + 1 < |s.lay.il[c.file]| {
      IbPlace(s, c.file, q + 1);
    }
  }

  /** The last index block of the file is cached; the chain is extended by one more. */
  ghost function NewNext(s: St, m: int): St
    requires Settled(s, m) && s.cbs[m].inum != LF_INULL && s.cbs[m].iblk.next == LF_INULL && s.lay.il[FREEL] != []
  {
    var c := s.cbs[m];
    LastOfChain(s, m);
    IbPlace(s, FREEL, 0);
    var j := s.lay.il[FREEL][0];
    St(s.ibs[c.inum := c.iblk.(next := j)], s.db,
       s.dir.(ifree := s.ibs[j].next),
       s.cbs[m := c.(inum := j, iblk := Cleared(c.iblk.offset + LF_IDATA), ibdirty := true, dnum := LF_DNULL)],
       IbTaken(s.lay, c.file))
  }

  lemma NewNextShape(s: St, m: int)
    requires Settled(s, m) && s.cbs[m].inum != LF_INULL && s.cbs[m].iblk.next == LF_INULL && s.lay.il[FREEL] != []
    ensures var t := NewNext(s, m); Shape(t) && FreeLists(t) && Openers(t) && Entries(t)
    ensures NewNext(s, m).lay.il[s.cbs[m].file] == s.lay.il[s.cbs[m].file] + [s.lay.il[FREEL][0]]
    ensures forall g :: 0 <= g < LF_NUM_DIR_ENT && g != s.cbs[m].file ==> NewNext(s, m).lay.il[g] == s.lay.il[g]
  {
    var t, f, free := NewNext(s, m), s.cbs[m].file, s.lay.il[FREEL];
    LastOfChain(s, m);
    IbPlace(s, f, |s.lay.il[f]| - 1);
    forall k | 0 <= k < |free|
      ensures 0 <= free[k] < |s.ibs| && t.ibs[free[k]] == s.ibs[free[k]]
    {
      IbPlace(s, FREEL, k);
    }
    IbTakenFree(s, t, f);
  }

  lemma NewNextOnDisk(s: St, m: int)
    requires Settled(s, m) && s.cbs[m].inum != LF_INULL && s.cbs[m].iblk.next == LF_INULL && s.lay.il[FREEL] != []
    ensures var t := NewNext(s, m); Shape(t) && Openers(t) && OnDisk(t)
  {
    var t, f := NewNext(s, m), s.cbs[m].file;
    var n := |s.lay.il[f]|;
    NewNextShape(s, m);
    LastOfChain(s, m);
    assert CbOk(s, m);
    IbPlace(s, f, n - 1);
    forall g, p | 0 <= g < LF_NUM_DIR_ENT && 0 <= p < |t.lay.il[g]|
      ensures BlockOk(t, g, p)
    {
      if g != f || p < n {
        assert BlockOk(s, g, p);
        IbPlace(s, g, p);
      }
    }
  }

  lemma NewNextInv(s: St, m: int)
    requires Settled(s, m) && s.cbs[m].inum != LF_INULL && s.cbs[m].iblk.next == LF_INULL && s.lay.il[FREEL] != []
    ensures OpenAt(NewNext(s, m), m) && SameView(s, NewNext(s, m))
  {
    hide FreeLists, MoveOwn;
    var t := NewNext(s, m);
    NewNextShape(s, m);
    NewNextOnDisk(s, m);
    LastOfChain(s, m);
    IbPlace(s, FREEL, 0);
    forall i | 0 <= i < NLFL && t.cbs[i].used
      ensures CbOk(t, i)
    {
      assert CbOk(s, i);
    }
    assert CbOk(s, m);
    forall g, b | 0 <= g < LF_NUM_DIR_ENT && 0 <= b < |s.lay.dl[g]|
      ensures View(t, g, b) == View(s, g, b)
    {
      DbPlace(s, g, b);
    }
  }

  /** The block that holds the position is put in the buffer from the disk. */
  ghost function LoadDb(s: St, m: int): St
    requires Settled(s, m) && s.cbs[m].inum != LF_INULL
    requires s.cbs[m].iblk.offset == s.cbs[m].pos / LF_IDATA * LF_IDATA
    requires 0 <= s.cbs[m].pos / LF_BLKSIZ < |s.lay.dl[s.cbs[m].file]|
  {
    var c := s.cbs[m];
    var b := c.pos / LF_BLKSIZ;
    DbPlace(s, c.file, b);
    var d := s.lay.dl[c.file][b];
    WithCb(s, m, c.(dnum := d, dblk := s.db[d - s.lay.lo], at := c.pos % LF_BLKSIZ))
  }

  lemma LoadDbInv(s: St, m: int)
    requires Settled(s, m) && s.cbs[m].inum != LF_INULL
    requires s.cbs[m].iblk.offset == s.cbs[m].pos / LF_IDATA * LF_IDATA
    requires 0 <= s.cbs[m].pos / LF_BLKSIZ < |s.lay.dl[s.cbs[m].file]|
    ensures OpenAt(LoadDb(s, m), m) && SameView(s, LoadDb(s, m))
  {
    hide View;
    var t, c := LoadDb(s, m), s.cbs[m];
    assert CbOk(s, m);
    DbPlace(s, c.file, c.pos / LF_BLKSIZ);
    forall g, p | 0 <= g < LF_NUM_DIR_ENT && 0 <= p < |t.lay.il[g]|
      ensures BlockOk(t, g, p)
    {
      assert BlockOk(s, g, p);
    }
    forall i | 0 <= i < NLFL && t.cbs[i].used
      ensures CbOk(t, i)
    {
      assert CbOk(s, i);
    }
    LoadDbView(s, m);
  }

  lemma LoadDbView(s: St, m: int)
    requires Settled(s, m) && s.cbs[m].inum != LF_INULL
    requires s.cbs[m].iblk.offset == s.cbs[m].pos / LF_IDATA * LF_IDATA
    requires 0 <= s.cbs[m].pos / LF_BLKSIZ < |s.lay.dl[s.cbs[m].file]|
    requires StInv(LoadDb(s, m))
    ensures SameView(s, LoadDb(s, m))
  {
    var t := LoadDb(s, m);
    assert CbOk(s, m);
    forall g, b | 0 <= g < LF_NUM_DIR_ENT && 0 <= b < |s.lay.dl[g]|
      ensures View(t, g, b) == View(s, g, b)
    {
      DbPlace(s, g, b);
    }
  }

  /** What lfdballoc fills a new data block with. */
  const DFILL: byte := 43

  function Filled(): Sector { seq(512, _ => DFILL) }

  /** The position is just past the last data block: a new one is taken from the free list.
      The buffer is marked dirty, as it becomes when the byte is stored in it. */
  ghost function NewDb(s: St, m: int): St
    requires OpenAt(s, m) && s.cbs[m].inum != LF_INULL && s.lay.dl[FREEL] != []
    requires |s.cbs[m].iblk.dba| == LF_IBLEN && 0 <= s.cbs[m].pos
  {
    var c := s.cbs[m];
    DbPlace(s, FREEL, 0);
    var d := s.lay.dl[FREEL][0];
    St(s.ibs, s.db, s.dir.(dfree := NextDb(s.db[d - s.lay.lo])),
       s.cbs[m := c.(iblk := c.iblk.(dba := c.iblk.dba[c.pos % LF_IDATA / LF_BLKSIZ := d]), ibdirty := true,
                     dnum := d, dblk := Filled(), dbdirty := true, at := c.pos % LF_BLKSIZ)],
       DbTaken(s.lay, c.file))
  }

  /** Conditions under which lfsetup allocates a data block. */
  ghost predicate AtEnd(s: St, m: int) {
    && OpenAt(s, m) && s.cbs[m].inum != LF_INULL && s.lay.dl[FREEL] != []
    && |s.cbs[m].iblk.dba| == LF_IBLEN && 0 <= s.cbs[m].pos && !s.cbs[m].dbdirty && s.cbs[m].at == LF_BLKSIZ
    && s.cbs[m].iblk.offset == s.cbs[m].pos / LF_IDATA * LF_IDATA
    && s.cbs[m].pos / LF_BLKSIZ == |s.lay.dl[s.cbs[m].file]|
  }

  lemma NewDbShape(s: St, m: int)
    requires AtEnd(s, m)
    ensures var t := NewDb(s, m); Shape(t) && FreeLists(t) && Openers(t)
    ensures NewDb(s, m).lay.dl[s.cbs[m].file] == s.lay.dl[s.cbs[m].file] + [s.lay.dl[FREEL][0]]
    ensures forall g :: 0 <= g < LF_NUM_DIR_ENT && g != s.cbs[m].file ==> NewDb(s, m).lay.dl[g] == s.lay.dl[g]
  {
    var t, f, free := NewDb(s, m), s.cbs[m].file, s.lay.dl[FREEL];
    MoveOwned(s.lay.dl, s.lay.down, FREEL, f, s.lay.lo, s.lay.hi);
    assert t.lay.dl[FREEL] == free[1..];
    assert DLink(s.db, s.lay.lo, free, 0);
    forall k | 0 <= k < |free[1..]|
      ensures DLink(t.db, t.lay.lo, free[1..], k)
    {
      assert DLink(s.db, s.lay.lo, free, k + 1);
    }
    forall k | 0 <= k < |t.lay.il[FREEL]|
      ensures ILink(t.ibs, t.lay.il[FREEL], k)
    {
      assert ILink(s.ibs, s.lay.il[FREEL], k);
    }
  }

  /** Storing a new block number changes what only one index block must say. */
  lemma SaysGrown(b: IBlk, chain: seq<int>, blocks: seq<int>, q: nat, d: int)
    requires Says(b, chain, blocks, q)
    ensures q != |blocks| / 16 ==> Says(b, chain, blocks + [d], q)
    ensures q == |blocks| / 16 ==> Says(b.(dba := b.dba[|blocks| % 16 := d]), chain, blocks + [d], q)
  {
  }

  lemma NewDbBlock(s: St, m: int, g: int, p: int)
    requires AtEnd(s, m) && 0 <= g < LF_NUM_DIR_ENT && 0 <= p < |s.lay.il[g]|
    requires Shape(NewDb(s, m)) && Openers(NewDb(s, m))
    ensures NewDb(s, m).lay.il == s.lay.il && BlockOk(NewDb(s, m), g, p)
  {
    hide FreeLists, Entries;
    var c := s.cbs[m];
    NewDbShape(s, m);
    assert CbOk(s, m) && BlockOk(s, g, p);
    IbPlace(s, c.file, c.iblk.offset / LF_IDATA);
    IbPlace(s, g, p);
    var j := s.lay.il[g][p];
    if g == c.file && c.inum != j {
      SaysGrown(s.ibs[j], s.lay.il[g], s.lay.dl[g], p, s.lay.dl[FREEL][0]);
    }
  }

  lemma NewDbOnDisk(s: St, m: int)
    requires AtEnd(s, m)
    ensures var t := NewDb(s, m); Shape(t) && Openers(t) && Entries(t) && OnDisk(t)
  {
    hide FreeLists;
    var t := NewDb(s, m);
    NewDbShape(s, m);
    assert CbOk(s, m);
    hide Cached, CbOk, BlockOk;
    forall g, p | 0 <= g < LF_NUM_DIR_ENT && 0 <= p < |t.lay.il[g]|
      ensures BlockOk(t, g, p)
    {
      NewDbBlock(s, m, g, p);
    }
  }

  lemma NewDbInv(s: St, m: int)
    requires AtEnd(s, m)
    ensures OpenAt(NewDb(s, m), m) && SameView(s, NewDb(s, m))
  {
    hide Entries;
    var t, c := NewDb(s, m), s.cbs[m];
    NewDbShape(s, m);
    NewDbOnDisk(s, m);
    DbPlace(s, FREEL, 0);
    forall i | 0 <= i < NLFL && t.cbs[i].used
      ensures CbOk(t, i)
    {
      assert CbOk(s, i);
    }
    assert CbOk(s, m);
    forall g, b | 0 <= g < LF_NUM_DIR_ENT && 0 <= b < |s.lay.dl[g]|
      ensures View(t, g, b) == View(s, g, b)
    {
      DbPlace(s, g, b);
    }
  }

  // ---- Steps that only move pointers or change the buffer ----------------------------

  /** `t` differs from `s` in pointers, buffer and dirtiness of control block `m` only. */
  ghost predicate OneCbMoved(s: St, t: St, m: int) {
    && OpenAt(s, m) && |t.cbs| == NLFL && t == WithCb(s, m, t.cbs[m])
    && t.cbs[m].used && t.cbs[m].file == s.cbs[m].file
    && t.cbs[m].inum == s.cbs[m].inum && t.cbs[m].iblk == s.cbs[m].iblk && t.cbs[m].ibdirty == s.cbs[m].ibdirty
    && Pointer(t.cbs[m], s.lay.dl[s.cbs[m].file]) && t.cbs[m].dnum == s.cbs[m].dnum
    && (t.cbs[m].dbdirty || (t.cbs[m].dblk == s.cbs[m].dblk && !s.cbs[m].dbdirty))
    && (t.cbs[m].dbdirty ==> t.cbs[m].dnum != LF_DNULL)
  }

  lemma OneCbOnDisk(s: St, t: St, m: int)
    requires OneCbMoved(s, t, m)
    ensures Shape(t) && FreeLists(t) && Openers(t) && Entries(t) && OnDisk(t)
  {
    forall g, p | 0 <= g < LF_NUM_DIR_ENT && 0 <= p < |t.lay.il[g]|
      ensures BlockOk(t, g, p)
    {
      assert BlockOk(s, g, p);
    }
  }

  lemma OneCb(s: St, t: St, m: int)
    requires OneCbMoved(s, t, m)
    ensures StInv(t)
    ensures t.cbs[m].dblk == s.cbs[m].dblk ==> SameView(s, t)
  {
    OneCbOnDisk(s, t, m);
    forall i | 0 <= i < NLFL && t.cbs[i].used
      ensures CbOk(t, i)
    {
      assert CbOk(s, i);
    }
  }

  function Dirtied(s: St, m: int): St
    requires 0 <= m < |s.cbs|
  {
    WithCb(s, m, s.cbs[m].(dbdirty := true))
  }

  lemma DirtiedInv(s: St, m: int)
    requires OpenAt(s, m) && s.cbs[m].dnum != LF_DNULL
    ensures OpenAt(Dirtied(s, m), m) && SameView(s, Dirtied(s, m))
  {
    assert CbOk(s, m);
    OneCb(s, Dirtied(s, m), m);
  }

  /** The position and the byte pointer move on by one. */
  function Advanced(c: Cb): Cb { c.(pos := c.pos + 1, at := c.at + 1) }

  lemma NextInBlock(pos: int)
    requires 0 <= pos && pos % LF_BLKSIZ + 1 < LF_BLKSIZ
    ensures (pos + 1) / LF_BLKSIZ == pos / LF_BLKSIZ && (pos + 1) / LF_IDATA == pos / LF_IDATA
    ensures (pos + 1) % LF_BLKSIZ == pos % LF_BLKSIZ + 1
  {
    assert pos / LF_IDATA == pos / LF_BLKSIZ / 16 && (pos + 1) / LF_IDATA == (pos + 1) / LF_BLKSIZ / 16;
  }

  lemma AdvancedPointer(c: Cb, blocks: seq<int>)
    requires Pointer(c, blocks) && c.at < LF_BLKSIZ && Uint32(c.pos + 1)
    ensures Pointer(Advanced(c), blocks)
  {
    if c.at + 1 < LF_BLKSIZ {
      NextInBlock(c.pos);
    }
  }

  function GetStep(s: St, m: int): St
    requires 0 <= m < |s.cbs|
  {
    WithCb(s, m, Advanced(s.cbs[m]))
  }

  lemma GetStepInv(s: St, m: int)
    requires OpenAt(s, m) && s.cbs[m].at < LF_BLKSIZ && Uint32(s.cbs[m].pos + 1)
    ensures OpenAt(GetStep(s, m), m) && SameView(s, GetStep(s, m))
  {
    assert CbOk(s, m);
    AdvancedPointer(s.cbs[m], s.lay.dl[s.cbs[m].file]);
    OneCb(s, GetStep(s, m), m);
  }

  /** The byte under a valid byte pointer is the byte of the file at the position. */
  lemma PointedByte(s: St, m: int)
    requires OpenAt(s, m) && SizesOk(s) && s.cbs[m].at < LF_BLKSIZ
    requires s.cbs[m].pos < s.dir.files[s.cbs[m].file].size
    ensures s.cbs[m].dblk[s.cbs[m].at] == FileBytes(s, s.cbs[m].file)[s.cbs[m].pos]
  {
    assert CbOk(s, m);
    FileByteAt(s, s.cbs[m].file, s.cbs[m].pos);
  }

  function Grown(dir: Dir, f: int, pos: int): Dir
    requires 0 <= f < |dir.files|
  {
    if pos >= dir.files[f].size then dir.(files := dir.files[f := dir.files[f].(size := dir.files[f].size + 1)])
        else dir
  }

  /** The byte `ch` is stored under the byte pointer and the size grows at the end. */
  function PutStep(s: St, m: int, ch: byte): St
    requires 0 <= m < |s.cbs| && 0 <= s.cbs[m].at < LF_BLKSIZ && 0 <= s.cbs[m].file < |s.dir.files|
  {
    var c := s.cbs[m];
    s.(dir := Grown(s.dir, c.file, c.pos),
       cbs := s.cbs[m := Advanced(c).(dblk := c.dblk[c.at := ch], dbdirty := true)])
  }

  lemma GrownInv(s: St, f: int, pos: int)
    requires StInv(s) && 0 <= f < LF_NUM_DIR_ENT
    ensures StInv(s.(dir := Grown(s.dir, f, pos))) && SameView(s, s.(dir := Grown(s.dir, f, pos)))
  {
    var t := s.(dir := Grown(s.dir, f, pos));
    forall g, p | 0 <= g < LF_NUM_DIR_ENT && 0 <= p < |t.lay.il[g]|
      ensures BlockOk(t, g, p)
    {
      assert BlockOk(s, g, p);
    }
    forall i | 0 <= i < NLFL && t.cbs[i].used
      ensures CbOk(t, i)
    {
      assert CbOk(s, i);
    }
  }

  /** Storing one byte changes one byte of one data block of one file. */
  lemma PutStepInv(s: St, m: int, ch: byte)
    requires OpenAt(s, m) && s.cbs[m].at < LF_BLKSIZ && Uint32(s.cbs[m].pos + 1)
    ensures OpenAt(PutStep(s, m, ch), m)
    ensures 0 <= s.cbs[m].pos / LF_BLKSIZ < |s.lay.dl[s.cbs[m].file]|
    ensures forall g, b :: 0 <= g < LF_NUM_DIR_ENT && 0 <= b < |s.lay.dl[g]| ==>
              View(PutStep(s, m, ch), g, b) ==
              if g == s.cbs[m].file && b == s.cbs[m].pos / LF_BLKSIZ then View(s, g, b)[s.cbs[m].pos % LF_BLKSIZ := ch]
              else View(s, g, b)
  {
    var c := s.cbs[m];
    var u := s.(dir := Grown(s.dir, c.file, c.pos));
    GrownInv(s, c.file, c.pos);
    assert CbOk(s, m);
    AdvancedPointer(c, s.lay.dl[c.file]);
    OneCb(u, PutStep(s, m, ch), m);
    PutStepView(s, m, ch);
  }

  lemma PutStepView(s: St, m: int, ch: byte)
    requires OpenAt(s, m) && s.cbs[m].at < LF_BLKSIZ && OpenAt(PutStep(s, m, ch), m)
    requires 0 <= s.cbs[m].pos / LF_BLKSIZ < |s.lay.dl[s.cbs[m].file]|
    ensures forall g, b :: 0 <= g < LF_NUM_DIR_ENT && 0 <= b < |s.lay.dl[g]| ==>
              View(PutStep(s, m, ch), g, b) ==
              if g == s.cbs[m].file && b == s.cbs[m].pos / LF_BLKSIZ then View(s, g, b)[s.cbs[m].pos % LF_BLKSIZ := ch]
              else View(s, g, b)
  {
    var t, c := PutStep(s, m, ch), s.cbs[m];
    assert CbOk(s, m);
    forall g, b | 0 <= g < LF_NUM_DIR_ENT && 0 <= b < |s.lay.dl[g]|
      ensures View(t, g, b) ==
              if g == c.file && b == c.pos / LF_BLKSIZ then View(s, g, b)[c.pos % LF_BLKSIZ := ch] else View(s, g, b)
    {
      DbPlace(s, g, b);
      DbPlace(s, c.file, c.pos / LF_BLKSIZ);
    }
  }

  /** The plain file operation that lflputc performs: overwrite or append one byte. */
  function PutAt(bs: seq<byte>, pos: nat, ch: byte): (r: seq<byte>)
    requires pos <= |bs|
  {
    if pos < |bs| then bs[pos := ch] else bs + [ch]
  }

  /** How the state `s` in which a byte is stored relates to the state `s0` at the call,
      in which no block may yet exist for the position. */
  ghost predicate Prepared(s0: St, s: St, m: int) {
    && OpenAt(s0, m) && SizesOk(s0) && OpenAt(s, m) && SameView(s0, s)
    && s.dir.nfiles == s0.dir.nfiles && s.cbs[m].file == s0.cbs[m].file && s.cbs[m].pos == s0.cbs[m].pos
    && (forall g :: 0 <= g < s.dir.nfiles ==> s.dir.files[g].size == s0.dir.files[g].size)
    && s.cbs[m].at < LF_BLKSIZ && Uint32(s.cbs[m].pos + 1)
  }

  lemma PutByte(s0: St, s: St, m: int, ch: byte, g: int, k: int)
    requires Prepared(s0, s, m) && OpenAt(PutStep(s, m, ch), m) && SizesOk(PutStep(s, m, ch))
    requires 0 <= g < s.dir.nfiles && 0 <= k < PutStep(s, m, ch).dir.files[g].size
    ensures 0 <= k / LF_BLKSIZ < |s.lay.dl[g]|
    ensures g == s.cbs[m].file && k == s.cbs[m].pos ==> View(PutStep(s, m, ch), g, k / LF_BLKSIZ)[k % LF_BLKSIZ] == ch
    ensures g != s.cbs[m].file || k != s.cbs[m].pos ==>
              && k < s0.dir.files[g].size && k / LF_BLKSIZ < |s0.lay.dl[g]|
              && View(PutStep(s, m, ch), g, k / LF_BLKSIZ)[k % LF_BLKSIZ] == View(s0, g, k / LF_BLKSIZ)[k % LF_BLKSIZ]
  {
    PutStepInv(s, m, ch);
    var b, c := k / LF_BLKSIZ, s.cbs[m];
    if g != c.file || k != c.pos {
      assert k < s0.dir.files[g].size;
      assert b < |s0.lay.dl[g]|;
      assert View(s, g, b) == View(s0, g, b);
      assert g != c.file || b != c.pos / LF_BLKSIZ || k % LF_BLKSIZ != c.pos % LF_BLKSIZ;
    }
  }

  /** One stored byte, seen on the contents of every file. */
  lemma PutBytes(s0: St, s: St, m: int, ch: byte)
    requires Prepared(s0, s, m) && OpenAt(PutStep(s, m, ch), m) && SizesOk(PutStep(s, m, ch))
    ensures forall g :: 0 <= g < s.dir.nfiles ==>
              FileBytes(PutStep(s, m, ch), g) ==
              if g == s.cbs[m].file then PutAt(FileBytes(s0, g), s0.cbs[m].pos, ch) else FileBytes(s0, g)
  {
    hide SameView, Entries, Bytes, FileBytes;
    var t, c := PutStep(s, m, ch), s.cbs[m];
    forall g | 0 <= g < s.dir.nfiles
      ensures FileBytes(t, g) == if g == c.file then PutAt(FileBytes(s0, g), c.pos, ch) else FileBytes(s0, g)
    {
      var want := if g == c.file then PutAt(FileBytes(s0, g), c.pos, ch) else FileBytes(s0, g);
      forall k | 0 <= k < |FileBytes(t, g)|
        ensures FileBytes(t, g)[k] == want[k]
      {
        PutByte(s0, s, m, ch, g, k);
        FileByteAt(t, g, k);
        if k < s0.dir.files[g].size {
          FileByteAt(s0, g, k);
        }
      }
    }
  }

  // ---- Names, opening and closing ----------------------------------------------------

  /** The C string at the start of a name buffer. */
  function CStr(buf: seq<byte>): seq<byte> {
    if buf == [] || buf[0] == 0 then [] else [buf[0]] + CStr(buf[1..])
  }

  /** The buffer holds a whole C string with its terminating null. */
  predicate Terminated(buf: seq<byte>) { 0 in buf }

  ghost predicate OtherName(files: seq<Entry>, f: int, g: int) {
    0 <= f < |files| && 0 <= g < |files| && CStr(files[f].name) != CStr(files[g].name)
  }

  /** Names end inside their buffers, no two entries have the same name, and an open
      file remembers the name of its entry. */
  ghost predicate NamesOk(dir: Dir, cbs: seq<Cb>) {
    && 0 <= dir.nfiles <= |dir.files|
    && (forall f :: 0 <= f < dir.nfiles ==> Terminated(dir.files[f].name))
    && (forall f, g :: 0 <= f < g < dir.nfiles ==> OtherName(dir.files, f, g))
    && (forall m :: 0 <= m < |cbs| && cbs[m].used ==>
          0 <= cbs[m].file < dir.nfiles && Terminated(cbs[m].name)
          && CStr(cbs[m].name) == CStr(dir.files[cbs[m].file].name))
  }

  /** Everything that holds between operations. */
  ghost predicate Good(s: St) {
    StInv(s) && SizesOk(s) && NamesOk(s.dir, s.cbs)
  }

  /** Names are kept when no name, owner or entry count changes. */
  lemma NamesKept(s: St, t: St)
    requires NamesOk(s.dir, s.cbs) && |t.cbs| == |s.cbs|
    requires t.dir.nfiles == s.dir.nfiles && |t.dir.files| == |s.dir.files|
    requires forall f :: 0 <= f < s.dir.nfiles ==> t.dir.files[f].name == s.dir.files[f].name
    requires forall m :: 0 <= m < |s.cbs| ==>
               t.cbs[m].used ==> s.cbs[m].used && t.cbs[m].file == s.cbs[m].file && t.cbs[m].name == s.cbs[m].name
    ensures NamesOk(t.dir, t.cbs)
  {
    forall f, g | 0 <= f < g < t.dir.nfiles
      ensures OtherName(t.dir.files, f, g)
    {
      assert OtherName(s.dir.files, f, g);
    }
  }

  /** lfsopen adds an empty entry to the directory. */
  function CreateStep(s: St, name: seq<byte>): St
    requires 0 <= s.dir.nfiles < |s.dir.files|
  {
    s.(dir := s.dir.(nfiles := s.dir.nfiles + 1,
                     files := s.dir.files[s.dir.nfiles := Entry(0, LF_INULL, name)]))
  }

  lemma CreateStepSt(s: St, name: seq<byte>)
    requires StInv(s) && s.dir.nfiles < LF_NUM_DIR_ENT
    ensures StInv(CreateStep(s, name))
  {
    var t := CreateStep(s, name);
    forall g, p | 0 <= g < LF_NUM_DIR_ENT && 0 <= p < |t.lay.il[g]|
      ensures BlockOk(t, g, p)
    {
      assert BlockOk(s, g, p);
    }
    forall i | 0 <= i < NLFL && t.cbs[i].used
      ensures CbOk(t, i)
    {
      assert CbOk(s, i);
    }
  }

  lemma CreateBytes(s: St, name: seq<byte>)
    requires StInv(s) && SizesOk(s) && s.dir.nfiles < LF_NUM_DIR_ENT
    ensures StInv(CreateStep(s, name)) && SizesOk(CreateStep(s, name))
    ensures forall f :: 0 <= f < s.dir.nfiles ==> FileBytes(CreateStep(s, name), f) == FileBytes(s, f)
    ensures FileBytes(CreateStep(s, name), s.dir.nfiles) == []
  {
    var t := CreateStep(s, name);
    CreateStepSt(s, name);
    assert SizesOk(t);
    forall f | 0 <= f < s.dir.nfiles
      ensures FileBytes(t, f) == FileBytes(s, f)
    {
      SameBytes(s, t, f);
    }
  }

  lemma CreateStepInv(s: St, name: seq<byte>)
    requires Good(s) && s.dir.nfiles < LF_NUM_DIR_ENT && Terminated(name)
    requires forall f :: 0 <= f < s.dir.nfiles ==> CStr(s.dir.files[f].name) != CStr(name)
    ensures Good(CreateStep(s, name))
    ensures forall f :: 0 <= f < s.dir.nfiles ==> FileBytes(CreateStep(s, name), f) == FileBytes(s, f)
    ensures FileBytes(CreateStep(s, name), s.dir.nfiles) == []
  {
    CreateBytes(s, name);
    CreateNames(s.dir, s.cbs, CreateStep(s, name).dir, name);
  }

  lemma CreateNames(dir: Dir, cbs: seq<Cb>, dir': Dir, name: seq<byte>)
    requires NamesOk(dir, cbs) && dir.nfiles < |dir.files| && Terminated(name)
    requires forall f :: 0 <= f < dir.nfiles ==> CStr(dir.files[f].name) != CStr(name)
    requires dir'.nfiles == dir.nfiles + 1 && dir'.files == dir.files[dir.nfiles := Entry(0, LF_INULL, name)]
    ensures NamesOk(dir', cbs)
  {
    forall f, g | 0 <= f < g < dir'.nfiles
      ensures OtherName(dir'.files, f, g)
    {
      if g < dir.nfiles {
        assert OtherName(dir.files, f, g);
      }
    }
  }

  /** lfsopen sets up control block `m` for file `f` at position 0, with nothing cached. */
  function OpenStep(s: St, m: int, f: int, name: seq<byte>): St
    requires 0 <= m < |s.cbs| && 0 <= f < |s.lay.opener|
  {
    s.(cbs := s.cbs[m := s.cbs[m].(used := true, file := f, pos := 0, name := name, inum := LF_INULL,
                                   dnum := LF_DNULL, at := LF_BLKSIZ, ibdirty := false, dbdirty := false)],
       lay := s.lay.(opener := s.lay.opener[f := m]))
  }

  lemma OpenStepSt(s: St, m: int, f: int, name: seq<byte>)
    requires StInv(s) && 0 <= m < NLFL && !s.cbs[m].used && 0 <= f < s.dir.nfiles && s.lay.opener[f] == -1
    ensures StInv(OpenStep(s, m, f, name))
  {
    var t := OpenStep(s, m, f, name);
    forall g, p | 0 <= g < LF_NUM_DIR_ENT && 0 <= p < |t.lay.il[g]|
      ensures BlockOk(t, g, p)
    {
      assert BlockOk(s, g, p);
    }
    forall i | 0 <= i < NLFL && t.cbs[i].used
      ensures CbOk(t, i)
    {
      if i != m {
        assert CbOk(s, i);
      }
    }
  }

  lemma OpenStepInv(s: St, m: int, f: int, name: seq<byte>)
    requires Good(s) && 0 <= m < NLFL && !s.cbs[m].used && 0 <= f < s.dir.nfiles && s.lay.opener[f] == -1
    requires Terminated(name) && CStr(name) == CStr(s.dir.files[f].name)
    ensures Good(OpenStep(s, m, f, name)) && SameView(s, OpenStep(s, m, f, name))
  {
    OpenStepSt(s, m, f, name);
    OpenStepView(s, m, f, name);
    OpenNames(s.dir, s.cbs, m, OpenStep(s, m, f, name).cbs[m]);
  }

  lemma OpenStepView(s: St, m: int, f: int, name: seq<byte>)
    requires StInv(s) && SizesOk(s) && 0 <= m < NLFL && !s.cbs[m].used && 0 <= f < s.dir.nfiles && s.lay.opener[f] == -1
    requires StInv(OpenStep(s, m, f, name))
    ensures SameView(s, OpenStep(s, m, f, name)) && SizesOk(OpenStep(s, m, f, name))
  {
    var t := OpenStep(s, m, f, name);
    forall g, b | 0 <= g < LF_NUM_DIR_ENT && 0 <= b < |s.lay.dl[g]|
      ensures View(t, g, b) == View(s, g, b)
    {
      DbPlace(s, g, b);
    }
  }

  lemma OpenNames(dir: Dir, cbs: seq<Cb>, m: int, c: Cb)
    requires NamesOk(dir, cbs) && 0 <= m < |cbs| && 0 <= c.file < dir.nfiles
    requires Terminated(c.name) && CStr(c.name) == CStr(dir.files[c.file].name)
    ensures NamesOk(dir, cbs[m := c])
  {
  }

  function CloseStep(s: St, m: int): St
    requires 0 <= m < |s.cbs| && 0 <= s.cbs[m].file < |s.lay.opener|
  {
    s.(cbs := s.cbs[m := s.cbs[m].(used := false)], lay := s.lay.(opener := s.lay.opener[s.cbs[m].file := -1]))
  }

  lemma CloseStepSt(s: St, m: int)
    requires OpenAt(s, m) && !s.cbs[m].ibdirty
    ensures StInv(CloseStep(s, m))
  {
    hide Says;
    var t := CloseStep(s, m);
    forall g, p | 0 <= g < LF_NUM_DIR_ENT && 0 <= p < |t.lay.il[g]|
      ensures BlockOk(t, g, p)
    {
      assert BlockOk(s, g, p);
    }
    forall i | 0 <= i < NLFL && t.cbs[i].used
      ensures CbOk(t, i)
    {
      assert CbOk(s, i);
    }
  }

  lemma CloseStepInv(s: St, m: int)
    requires Good(s) && OpenAt(s, m) && !s.cbs[m].ibdirty && !s.cbs[m].dbdirty
    ensures Good(CloseStep(s, m)) && SameView(s, CloseStep(s, m))
  {
    CloseStepSt(s, m);
    CloseStepView(s, m);
    NamesKept(s, CloseStep(s, m));
  }

  lemma CloseStepView(s: St, m: int)
    requires StInv(s) && SizesOk(s) && OpenAt(s, m) && !s.cbs[m].dbdirty && StInv(CloseStep(s, m))
    ensures SameView(s, CloseStep(s, m)) && SizesOk(CloseStep(s, m))
  {
    var t := CloseStep(s, m);
    assert CbOk(s, m);
    forall g, b | 0 <= g < LF_NUM_DIR_ENT && 0 <= b < |s.lay.dl[g]|
      ensures View(t, g, b) == View(s, g, b)
    {
      DbPlace(s, g, b);
    }
  }

  // ---- lftruncate --------------------------------------------------------------------

  function Reverse(l: seq<int>): (r: seq<int>)
    ensures |r| == |l|
  {
    if l == [] then [] else Reverse(l[1..]) + [l[0]]
  }

  lemma {:induction false} ReverseAt(l: seq<int>, k: nat)
    requires k < |l|
    ensures Reverse(l)[k] == l[|l| - 1 - k]
  {
    if k < |l| - 1 {
      ReverseAt(l[1..], k);
    }
  }

  lemma {:induction false} ReverseGrows(l: seq<int>, x: int)
    ensures Reverse(l + [x]) == [x] + Reverse(l)
  {
    if l != [] {
      assert (l + [x])[1..] == l[1..] + [x];
      ReverseGrows(l[1..], x);
    }
  }

  /** All blocks of file `f` put on the free lists: the index chain in front as it was
      linked, the data blocks in front in the opposite order. */
  function Emptied(lay: Layout, f: int): Layout
    requires 0 <= f < |lay.il| && FREEL < |lay.il| && |lay.il| == |lay.dl| && f != FREEL
  {
    lay.(il := lay.il[FREEL := lay.il[f] + lay.il[FREEL]][f := []],
         dl := lay.dl[FREEL := Reverse(lay.dl[f]) + lay.dl[FREEL]][f := []],
         iown := map x | x in lay.iown ::
           if lay.iown[x].list == f then Place(FREEL, lay.iown[x].idx)
           else if lay.iown[x].list == FREEL then Place(FREEL, |lay.il[f]| + lay.iown[x].idx)
           else lay.iown[x],
         down := map x | x in lay.down ::
           if lay.down[x].list == f then Place(FREEL, |lay.dl[f]| - 1 - lay.down[x].idx)
           else if lay.down[x].list == FREEL then Place(FREEL, |lay.dl[f]| + lay.down[x].idx)
           else lay.down[x])
  }

  lemma EmptiedIl(s: St, f: int)
    requires Shape(s) && 0 <= f < LF_NUM_DIR_ENT
    ensures Owned(Emptied(s.lay, f).il, Emptied(s.lay, f).iown, 0, |s.ibs|)
  {
    var e, n := Emptied(s.lay, f), |s.lay.il[f]|;
    forall a, i | 0 <= a < |e.il| && 0 <= i < |e.il[a]|
      ensures PlaceOk(e.il, e.iown, 0, |s.ibs|, a, i)
    {
      if a == FREEL && i < n {
        IbPlace(s, f, i);
      } else if a == FREEL {
        IbPlace(s, FREEL, i - n);
      } else {
        IbPlace(s, a, i);
      }
    }
    forall x | 0 <= x < |s.ibs|
      ensures Placed(e.il, e.iown, x)
    {
      assert Placed(s.lay.il, s.lay.iown, x);
    }
  }

  lemma EmptiedDl(s: St, f: int)
    requires Shape(s) && 0 <= f < LF_NUM_DIR_ENT
    ensures Owned(Emptied(s.lay, f).dl, Emptied(s.lay, f).down, s.lay.lo, s.lay.hi)
  {
    var e, n := Emptied(s.lay, f), |s.lay.dl[f]|;
    forall a, i | 0 <= a < |e.dl| && 0 <= i < |e.dl[a]|
      ensures PlaceOk(e.dl, e.down, s.lay.lo, s.lay.hi, a, i)
    {
      if a == FREEL && i < n {
        ReverseAt(s.lay.dl[f], i);
        DbPlace(s, f, n - 1 - i);
      } else if a == FREEL {
        DbPlace(s, FREEL, i - n);
      } else {
        DbPlace(s, a, i);
      }
    }
    forall x | s.lay.lo <= x < s.lay.hi
      ensures Placed(e.dl, e.down, x)
    {
      assert Placed(s.lay.dl, s.lay.down, x);
      var p := s.lay.down[x];
      if p.list == f {
        ReverseAt(s.lay.dl[f], n - 1 - p.idx);
      }
    }
  }

  /** The disk after the walk over the chain of file `f`. */
  ghost predicate WalkedDisk(s: St, f: int, ibs: seq<IBlk>, db: seq<Sector>)
    requires Shape(s) && 0 <= f < LF_NUM_DIR_ENT
  {
    && |ibs| == |s.ibs| && |db| == |s.db|
    && (forall k :: 0 <= k < |s.lay.il[f]| ==> ILink(ibs, s.lay.il[f] + s.lay.il[FREEL], k))
    && (forall j :: 0 <= j < |ibs| && j in s.lay.iown && s.lay.iown[j].list != f ==> ibs[j] == s.ibs[j])
    && (forall k :: 0 <= k < |s.lay.dl[f]| ==> DLink(db, s.lay.lo, Reverse(s.lay.dl[f]) + s.lay.dl[FREEL], k))
    && (forall d :: s.lay.lo <= d < s.lay.hi && d in s.lay.down && s.lay.down[d].list != f ==>
          db[d - s.lay.lo] == s.db[d - s.lay.lo])
  }

  function TruncDir(s: St, f: int): Dir
    requires 0 <= f < |s.dir.files| && f < |s.lay.il| == |s.lay.dl| && FREEL < |s.lay.il|
  {
    s.dir.(ifree := At(s.lay.il[f] + s.lay.il[FREEL], 0),
           dfree := At(Reverse(s.lay.dl[f]) + s.lay.dl[FREEL], 0),
           files := s.dir.files[f := s.dir.files[f].(ilist := LF_INULL, size := 0)])
  }

  function TruncStep(s: St, m: int, ibs: seq<IBlk>, db: seq<Sector>): St
    requires 0 <= m < |s.cbs| && 0 <= s.cbs[m].file < FREEL < |s.lay.il| == |s.lay.dl| && s.cbs[m].file < |s.dir.files|
  {
    var c := s.cbs[m];
    St(ibs, db, TruncDir(s, c.file),
       s.cbs[m := c.(pos := 0, inum := LF_INULL, dnum := LF_DNULL, at := LF_BLKSIZ)],
       Emptied(s.lay, c.file))
  }

  lemma TruncShape(s: St, m: int, ibs: seq<IBlk>, db: seq<Sector>)
    requires OpenAt(s, m) && WalkedDisk(s, s.cbs[m].file, ibs, db)
    ensures var t := TruncStep(s, m, ibs, db); Shape(t) && FreeLists(t) && Openers(t) && Entries(t)
  {
    var t, f := TruncStep(s, m, ibs, db), s.cbs[m].file;
    EmptiedIl(s, f);
    EmptiedDl(s, f);
    var il, dl := t.lay.il[FREEL], t.lay.dl[FREEL];
    forall k | 0 <= k < |il|
      ensures ILink(ibs, il, k)
    {
      if k >= |s.lay.il[f]| {
        IbPlace(s, FREEL, k - |s.lay.il[f]|);
        assert ILink(s.ibs, s.lay.il[FREEL], k - |s.lay.il[f]|);
      }
    }
    forall k | 0 <= k < |dl|
      ensures DLink(db, s.lay.lo, dl, k)
    {
      if k >= |s.lay.dl[f]| {
        DbPlace(s, FREEL, k - |s.lay.dl[f]|);
        assert DLink(s.db, s.lay.lo, s.lay.dl[FREEL], k - |s.lay.dl[f]|);
      }
    }
  }

  lemma TruncOnDisk(s: St, m: int, ibs: seq<IBlk>, db: seq<Sector>)
    requires OpenAt(s, m) && !s.cbs[m].ibdirty && WalkedDisk(s, s.cbs[m].file, ibs, db)
    ensures var t := TruncStep(s, m, ibs, db); Shape(t) && FreeLists(t) && Openers(t) && Entries(t) && OnDisk(t)
  {
    var t, f := TruncStep(s, m, ibs, db), s.cbs[m].file;
    TruncShape(s, m, ibs, db);
    forall g, p | 0 <= g < LF_NUM_DIR_ENT && 0 <= p < |t.lay.il[g]|
      ensures BlockOk(t, g, p)
    {
      assert BlockOk(s, g, p);
      IbPlace(s, g, p);
    }
  }

  lemma TruncSt(s: St, m: int, ibs: seq<IBlk>, db: seq<Sector>)
    requires OpenAt(s, m) && SizesOk(s) && !s.cbs[m].ibdirty && !s.cbs[m].dbdirty
    requires WalkedDisk(s, s.cbs[m].file, ibs, db)
    ensures OpenAt(TruncStep(s, m, ibs, db), m) && SizesOk(TruncStep(s, m, ibs, db))
  {
    hide FreeLists, Entries, Says, ILink;
    var t := TruncStep(s, m, ibs, db);
    TruncOnDisk(s, m, ibs, db);
    forall i | 0 <= i < NLFL && t.cbs[i].used
      ensures CbOk(t, i)
    {
      assert CbOk(s, i);
    }
  }

  /** Truncation leaves every other file alone and makes this one the empty sequence. */
  lemma TruncInv(s: St, m: int, ibs: seq<IBlk>, db: seq<Sector>)
    requires Good(s) && OpenAt(s, m) && !s.cbs[m].ibdirty && !s.cbs[m].dbdirty
    requires WalkedDisk(s, s.cbs[m].file, ibs, db)
    ensures Good(TruncStep(s, m, ibs, db)) && OpenAt(TruncStep(s, m, ibs, db), m)
    ensures FileBytes(TruncStep(s, m, ibs, db), s.cbs[m].file) == []
    ensures forall g :: 0 <= g < s.dir.nfiles && g != s.cbs[m].file ==>
              FileBytes(TruncStep(s, m, ibs, db), g) == FileBytes(s, g)
  {
    TruncSt(s, m, ibs, db);
    NamesKept(s, TruncStep(s, m, ibs, db));
    TruncBytes(s, m, ibs, db);
  }

  lemma TruncBytes(s: St, m: int, ibs: seq<IBlk>, db: seq<Sector>)
    requires OpenAt(s, m) && SizesOk(s) && !s.cbs[m].ibdirty && !s.cbs[m].dbdirty
    requires WalkedDisk(s, s.cbs[m].file, ibs, db)
    requires StInv(TruncStep(s, m, ibs, db)) && SizesOk(TruncStep(s, m, ibs, db))
    ensures FileBytes(TruncStep(s, m, ibs, db), s.cbs[m].file) == []
    ensures forall g :: 0 <= g < s.dir.nfiles && g != s.cbs[m].file ==>
              FileBytes(TruncStep(s, m, ibs, db), g) == FileBytes(s, g)
  {
    var t, f := TruncStep(s, m, ibs, db), s.cbs[m].file;
    forall g | 0 <= g < s.dir.nfiles && g != f
      ensures FileBytes(t, g) == FileBytes(s, g)
    {
      forall k | 0 <= k < |FileBytes(s, g)|
        ensures FileBytes(t, g)[k] == FileBytes(s, g)[k]
      {
        FileByteAt(s, g, k);
        FileByteAt(t, g, k);
        DbPlace(s, g, k / LF_BLKSIZ);
      }
    }
  }
}
