/** The local file system: control blocks of open files, the directory in memory and the
    disk, changed in place by the operations of device/lfs. */
module Lfs {
  import opened Common
  import opened LfsLayout
  import opened LfsState
  import opened LfsSteps
  import opened LfsDisk
  import opened LfsSetup
  import opened LfsOps
  import opened LfsFormat

  const EOF := -2

  /** The mode argument of lfsopen after lfgetmode: the file must exist, must not exist,
      and the read and write bits, which nothing looks at again. */
  datatype OpenMode = BadMode | Mode(mustExist: bool, mustNotExist: bool, rw: int)

  /** The control block of one local file pseudo-device. */
  class Lflcblk {
    var lfstate: bool        // in use
    var lfdirptr: int        // the file's entry in the directory
    var lfmode: int
    var lfpos: int
    var lfname: NameBuf
    var lfinum: int
    var lfiblock: IBlk
    var lfdnum: int
    var lfdblock: Sector
    var lfbyte: int          // index into lfdblock, LF_BLKSIZ when invalid
    var lfibdirty: bool
    var lfdbdirty: bool

    ghost function Value(): Cb
      reads this
    {
      Cb(lfstate, lfdirptr, lfpos, lfname, lfinum, lfiblock, lfdnum, lfdblock, lfbyte, lfibdirty, lfdbdirty)
    }

    constructor Lflinit()
      ensures !lfstate
    {
      lfstate, lfdirptr, lfmode, lfpos := false, 0, 0, 0;
      lfname := seq(LF_NAME_LEN, _ => 0);
      lfinum, lfdnum, lfbyte := LF_INULL, 0, LF_BLKSIZ;
      lfiblock := IBlk(0, 0, seq(16, _ => 0));
      lfdblock := seq(512, _ => 0);
      lfibdirty, lfdbdirty := false, false;
    }

    /** The fields of a control block for entry `i` of the directory. */
    method Opened(i: int, mode: int, name: NameBuf)
      modifies this
      ensures Value() == old(Value()).(used := true, file := i, pos := 0, name := name, inum := LF_INULL,
                                       dnum := LF_DNULL, at := LF_BLKSIZ, ibdirty := false, dbdirty := false)
    {
      lfstate := true;
      lfdirptr := i;
      lfmode := mode;
      lfpos := 0;
      lfname := name;
      lfinum := LF_INULL;
      lfdnum := LF_DNULL;
      lfbyte := LF_BLKSIZ;
      lfibdirty := false;
      lfdbdirty := false;
    }
  }

  lemma DecIbShift(s: seq<byte>, at: nat)
    requires at + IBSIZE <= |s|
    ensures DecIb(s[at..at + IBSIZE], 0) == DecIb(s, at)
  {
    var t := s[at..at + IBSIZE];
    forall k | 0 <= k < 16
      ensures DecIb(t, 0).dba[k] == DecIb(s, at).dba[k]
    {
    }
    assert DecIb(t, 0).dba == DecIb(s, at).dba;
  }

  class LocalFs {
    var disk: Disk
    var dir: Dir
    var dirpresent: bool
    var dirdirty: bool
    const lfltab: seq<Lflcblk>
    ghost var lay: Layout

    ghost function Cbs(): (r: seq<Cb>)
      reads lfltab
      ensures |r| == |lfltab| && forall i :: 0 <= i < |lfltab| ==> r[i] == lfltab[i].Value()
    {
      seq(|lfltab|, i requires 0 <= i < |lfltab| reads lfltab => lfltab[i].Value())
    }

    ghost predicate Mounted()
      reads this
    {
      && |lfltab| == NLFL && (forall i, j :: 0 <= i < j < NLFL ==> lfltab[i] != lfltab[j])
      && 1 <= lay.lo <= lay.hi <= |disk| && WfDir(dir)
    }

    ghost function Blocks(): (r: seq<IBlk>)
      requires Mounted()
      reads this
      ensures |r| == 7 * (lay.lo - 1)
    {
      Ibs(disk, lay.lo)
    }

    ghost function Sectors(): (r: seq<Sector>)
      requires Mounted()
      reads this
      ensures |r| == lay.hi - lay.lo
    {
      disk[lay.lo..lay.hi]
    }

    /** The directory: in memory once a file has been opened, before that on the disk. */
    ghost function Directory(): Dir
      requires Mounted()
      reads this
    {
      if dirpresent then dir else DecDir(disk[0])
    }

    ghost function State(): St
      requires Mounted()
      reads this, lfltab
    {
      St(Blocks(), Sectors(), Directory(), Cbs(), lay)
    }

    ghost predicate Valid()
      reads this, lfltab
    {
      Mounted() && Good(State()) && (!dirpresent ==> forall i :: 0 <= i < NLFL ==> !lfltab[i].lfstate)
    }

    /** File `f` is open on control block `m`. */
    ghost predicate IsOpen(m: int)
      reads this, lfltab
    {
      Mounted() && dirpresent && OpenAt(State(), m)
    }

    /** `lfptr` is control block `m` and `s` is the present state. */
    ghost predicate Here(lfptr: Lflcblk, m: int, s: St)
      reads this, lfltab
    {
      0 <= m < NLFL && Mounted() && dirpresent && lfptr == lfltab[m] && s == State()
    }

    /** A clean directory is the one on the disk. */
    ghost predicate Synced()
      reads this
    {
      dirpresent && !dirdirty ==> disk != [] && DecDir(disk[0]) == dir
    }

    // ---- lfsinit, lflinit and lfscreate ------------------------------------------------

    /** A disk is attached: nothing is open and the directory is not in memory yet. */
    constructor Lfsinit(d: Disk, ghost layout: Layout)
      requires 1 <= layout.lo <= layout.hi <= |d|
      ensures disk == d && lay == layout && Mounted() && !dirpresent && !dirdirty && fresh(lfltab)
      ensures forall i :: 0 <= i < NLFL ==> !lfltab[i].lfstate
      ensures Good(State()) ==> Valid()
    {
      var c0 := new Lflcblk.Lflinit();
      var c1 := new Lflcblk.Lflinit();
      var c2 := new Lflcblk.Lflinit();
      var c3 := new Lflcblk.Lflinit();
      var c4 := new Lflcblk.Lflinit();
      var c5 := new Lflcblk.Lflinit();
      lfltab := [c0, c1, c2, c3, c4, c5];
      disk, lay := d, layout;
      dir := EmptyDir(0);
      dirpresent, dirdirty := false, false;
    }

    /** The first loop of lfscreate: the free list of index blocks. */
    method LinkIbs(lfiblks: int)
      requires Mounted() && lfiblks == |Blocks()| && 0 < lfiblks < 0x8000_0000
      modifies this`disk
      ensures Mounted() && IbsLinked(Blocks(), lfiblks) && disk[0] == old(disk[0])
    {
      var iblock := Cleared(0);
      var i := 0;
      while i < lfiblks - 1
        invariant 0 <= i < lfiblks && Mounted() && WfIb(iblock)
        invariant disk[0] == old(disk[0]) && IbsLinked(Blocks(), i)
      {
        iblock := iblock.(next := i + 1);
        IbLinked(Blocks(), i, iblock);
        Lfibput(i, iblock);
        i := i + 1;
      }
      iblock := iblock.(next := LF_INULL);
      IbLinked(Blocks(), i, iblock);
      Lfibput(i, iblock);
    }

    /** The second loop of lfscreate: the free list of data blocks. */
    method LinkDbs(first: int, dblks: int)
      requires Mounted() && first == lay.lo && dblks == |Sectors()| && 0 < dblks && Int32(first + dblks)
      modifies this`disk
      ensures Mounted() && DbsLinked(Sectors(), lay.lo, Upto(lay.lo, lay.hi), dblks)
      ensures disk[0] == old(disk[0]) && Blocks() == old(Blocks())
    {
      assert DbsLinked(Sectors(), lay.lo, Upto(lay.lo, lay.hi), 0);
      hide DbsLinked, EncDb, NextDb;
      var zeros := seq(508, _ => 0);
      var dbindex, i := first, 0;
      while i < dblks - 1
        invariant 0 <= i < dblks && Mounted() && dbindex == first + i
        invariant disk[0] == old(disk[0]) && Blocks() == old(Blocks())
        invariant DbsLinked(Sectors(), lay.lo, Upto(lay.lo, lay.hi), i)
      {
        var dblock := EncDb(dbindex + 1, zeros);
        DecEncDb(dbindex + 1, zeros);
        DbLinked(Sectors(), lay.lo, i, dblock);
        WriteSector(dbindex, dblock);
        dbindex := dbindex + 1;
        i := i + 1;
      }
      var dblock := EncDb(LF_DNULL, zeros);
      DecEncDb(LF_DNULL, zeros);
      DbLinked(Sectors(), lay.lo, i, dblock);
      WriteSector(dbindex, dblock);
    }

    /** A disk is formatted before its first use; a disk too small for that many index
        blocks is refused. */
    method Lfscreate(lfiblks: nat, dsiz: nat) returns (r: int)
      requires Mounted() && !dirpresent && forall i :: 0 <= i < NLFL ==> !lfltab[i].lfstate
      requires Uint32(dsiz) && dsiz / LF_BLKSIZ <= |disk|
      // at least one index block and one data sector
      requires 0 < lfiblks < 0x7fff_fff0 && (lfiblks + 6) / 7 + 1 != dsiz / LF_BLKSIZ
      modifies this`disk, this`lay
      // half of the disk has room for 7 index blocks a sector
      ensures r == SYSERR <==> lfiblks > 7 * (dsiz / LF_BLKSIZ / 2)
      ensures r == SYSERR ==> disk == old(disk) && lay == old(lay)
      ensures r != SYSERR ==>
                && r == OK && Valid() && Directory().nfiles == 0
                && lfiblks <= |Blocks()| < lfiblks + 7 && lay.lo == |Blocks()| / 7 + 1 && lay.hi == dsiz / LF_BLKSIZ
      // the free lists are all index blocks and all sectors behind them, in order
      ensures r != SYSERR ==>
                && |lay.il| == |lay.dl| == FREEL + 1 && |lay.il[FREEL]| == |Blocks()|
                && (forall k :: 0 <= k < |Blocks()| ==> lay.il[FREEL][k] == k)
                && |lay.dl[FREEL]| == lay.hi - lay.lo
                && (forall k :: 0 <= k < lay.hi - lay.lo ==> lay.dl[FREEL][k] == lay.lo + k)
                && (forall f :: 0 <= f < FREEL ==> lay.il[f] == [] && lay.dl[f] == [])
    {
      hide StInv, SizesOk, NamesOk;
      var sectors := dsiz / LF_BLKSIZ;
      var ibpersector := LF_BLKSIZ / IBSIZE;
      var ibsectors := (lfiblks + (ibpersector - 1)) / ibpersector;
      if ibsectors > sectors / 2 {
        return SYSERR;
      }
      lay := FreshLayout(ibsectors + 1, sectors);
      var newdir := EmptyDir(ibsectors + 1);
      DecEncDir(newdir);
      WriteSector(LF_AREA_DIR, EncDir(newdir));
      LinkIbs(ibsectors * ibpersector);
      LinkDbs(ibsectors + 1, sectors - ibsectors - 1);
      FreshIsGood(State());
      r := OK;
    }

    // ---- Index blocks ----------------------------------------------------------------

    method Lfibget(inum: int) returns (ib: IBlk)
      requires HasSectorOf(disk, inum)
      ensures ib == GetIb(disk, inum)
    {
      var dbuff: Sector := disk[Ib2Sect(inum)];
      var from := Ib2Disp(inum);
      var to: seq<byte> := [];
      for i := 0 to IBSIZE
        invariant to == dbuff[from..from + i]
      {
        to := to + [dbuff[from + i]];
      }
      DecIbShift(dbuff, from);
      ib := DecIb(to, 0);
    }

    method Lfibput(inum: int, ibuff: IBlk)
      requires Mounted() && 0 <= inum < 7 * (lay.lo - 1) && WfIb(ibuff)
      modifies this`disk
      ensures Mounted() && Blocks() == old(Blocks())[inum := ibuff]
      ensures Sectors() == old(Sectors()) && disk[0] == old(disk[0])
    {
      InArea(inum, lay.lo);
      IbWrite(disk, inum, ibuff, lay.lo, lay.hi);
      var diskblock, to := Ib2Sect(inum), Ib2Disp(inum);
      var from := EncIb(ibuff);
      var dbuff: Sector := disk[diskblock];
      ghost var was := dbuff;
      for i := 0 to IBSIZE
        invariant dbuff == was[..to] + from[..i] + was[to + i..]
      {
        dbuff := dbuff[to + i := from[i]];
      }
      assert dbuff == Splice(was, to, from);
      disk := disk[diskblock := dbuff];
    }

    /** write() on the disk device, to the directory or to a data sector. */
    method WriteSector(blk: int, buff: Sector)
      requires Mounted() && (blk == LF_AREA_DIR || lay.lo <= blk < lay.hi)
      modifies this`disk
      ensures Mounted() && Blocks() == old(Blocks())
      ensures blk == LF_AREA_DIR ==> disk[0] == buff && Sectors() == old(Sectors())
      ensures blk != LF_AREA_DIR ==> disk[0] == old(disk[0]) && Sectors() == old(Sectors())[blk - lay.lo := buff]
    {
      SectorWrite(disk, blk, buff, lay.lo, lay.hi);
      disk := disk[blk := buff];
    }

    /** The directory in memory goes to sector 0. */
    method WriteDirectory()
      requires Mounted() && dirpresent
      modifies this`disk
      ensures Mounted() && Blocks() == old(Blocks()) && Sectors() == old(Sectors()) && DecDir(disk[0]) == dir
    {
      DecEncDir(dir);
      WriteSector(LF_AREA_DIR, EncDir(dir));
    }

    // ---- Free lists ------------------------------------------------------------------

    method Lfiballoc() returns (ibnum: int)
      requires Mounted() && dirpresent && 0 <= dir.ifree < |Blocks()|
      modifies this`disk, this`dir, this`dirdirty
      ensures Mounted() && !dirdirty && ibnum == old(dir.ifree)
      ensures dir == old(dir).(ifree := Blocks()[ibnum].next)
      ensures Blocks() == old(Blocks()) && Sectors() == old(Sectors()) && DecDir(disk[0]) == dir
    {
      ibnum := dir.ifree;
      InArea(ibnum, lay.lo);
      var iblock := Lfibget(ibnum);
      dir := dir.(ifree := iblock.next);
      WriteDirectory();
      dirdirty := false;
    }

    method Lfdballoc() returns (dnum: int, dbuff: Sector)
      requires Mounted() && dirpresent && lay.lo <= dir.dfree < lay.hi
      modifies this`disk, this`dir, this`dirdirty
      ensures Mounted() && !dirdirty && dnum == old(dir.dfree) && dbuff == Filled()
      ensures dir == old(dir).(dfree := NextDb(Sectors()[dnum - lay.lo]))
      ensures Blocks() == old(Blocks()) && Sectors() == old(Sectors()) && DecDir(disk[0]) == dir
    {
      dnum := dir.dfree;
      dbuff := disk[dnum];
      dir := dir.(dfree := NextDb(dbuff));
      WriteDirectory();
      dirdirty := false;
      dbuff := seq(512, _ => DFILL);
    }

    /** `rest` is what the stack buffer happens to hold after the link word. */
    method Lfdbfree(dnum: int, rest: seq<byte>)
      requires Mounted() && dirpresent && lay.lo <= dnum < lay.hi && Int32(dnum) && |rest| == 508
      modifies this`disk, this`dir
      ensures Mounted() && dir == old(dir).(dfree := dnum)
      ensures Blocks() == old(Blocks()) && DecDir(disk[0]) == dir
      ensures Sectors() == old(Sectors())[dnum - lay.lo := EncDb(old(dir.dfree), rest)]
    {
      var buf := EncDb(dir.dfree, rest);
      dir := dir.(dfree := dnum);
      WriteSector(dnum, buf);
      WriteDirectory();
    }

    // ---- lfflush ---------------------------------------------------------------------

    /** The part of lfflush that writes the data block. */
    method FlushData(lfptr: Lflcblk, ghost m: nat)
      requires m < NLFL && |lfltab| == NLFL && lfptr == lfltab[m] && IsOpen(m) && lfptr.lfdbdirty
      modifies this`disk, lfptr`lfdbdirty
      ensures IsOpen(m) && State() == WriteDb(old(State()), m) && disk[0] == old(disk[0])
    {
      ghost var s0 := State();
      assert CbOk(s0, m);
      WriteDbInv(s0, m);
      WriteSector(lfptr.lfdnum, lfptr.lfdblock);
      lfptr.lfdbdirty := false;
      assert Cbs() == old(Cbs())[m := lfptr.Value()];
      assert State() == WriteDb(s0, m);
    }

    /** The part of lfflush that writes the index block. */
    method FlushIndex(lfptr: Lflcblk, ghost m: nat)
      requires m < NLFL && |lfltab| == NLFL && lfptr == lfltab[m]
      requires IsOpen(m) && lfptr.lfibdirty && Uint32(lfptr.lfiblock.offset)
      modifies this`disk, lfptr`lfibdirty
      ensures IsOpen(m) && State() == WriteIb(old(State()), m) && disk[0] == old(disk[0])
    {
      ghost var s0 := State();
      assert CbOk(s0, m);
      WriteIbInv(s0, m);
      CachedIbFits(s0, m);
      Lfibput(lfptr.lfinum, lfptr.lfiblock);
      lfptr.lfibdirty := false;
      assert Cbs() == old(Cbs())[m := lfptr.Value()];
      assert State() == WriteIb(s0, m);
    }

    method Lfflush(lfptr: Lflcblk, ghost m: nat) returns (r: int)
      requires m < NLFL && Mounted() && lfptr == lfltab[m] && dirpresent && StInv(State())
      requires lfptr.lfstate && lfptr.lfinum != LF_INULL ==> Uint32(lfptr.lfiblock.offset)
      modifies this`disk, this`dirdirty, lfptr`lfibdirty, lfptr`lfdbdirty
      ensures Mounted() && (old(Synced()) ==> Synced())
      ensures !lfptr.lfstate ==>
                r == SYSERR && State() == old(State()) && disk == old(disk) && dirdirty == old(dirdirty)
      ensures lfptr.lfstate ==> r == OK && !dirdirty && State() == Flushed(old(State()), m)
    {
      hide Openers, FreeLists, Entries, WfDir;
      if !lfptr.lfstate {
        assert Cbs() == old(Cbs());
        return SYSERR;
      }
      ghost var s0 := State();
      assert CbOk(s0, m);
      if dirdirty {
        WriteDirectory();
        dirdirty := false;
        assert State() == s0;
      }
      if lfptr.lfdbdirty {
        FlushData(lfptr, m);
      }
      if lfptr.lfibdirty {
        FlushIndex(lfptr, m);
      }
      return OK;
    }

    /** lfflush under the condition `dirty` that its caller has tested. */
    method FlushIf(dirty: bool, lfptr: Lflcblk, ghost m: nat, ghost s: St) returns (ghost u: St)
      requires Here(lfptr, m, s) && OpenAt(s, m) && SizesOk(s)
      requires dirty || (!lfptr.lfibdirty && !lfptr.lfdbdirty)
      modifies this`disk, this`dirdirty, lfptr`lfibdirty, lfptr`lfdbdirty
      ensures Here(lfptr, m, u) && u == Flushed(s, m) && (old(Synced()) ==> Synced())
      ensures !dirty ==> disk == old(disk) && dirdirty == old(dirdirty)
      ensures dirty ==> !dirdirty
    {
      if dirty {
        if lfptr.lfinum != LF_INULL {
          OffsetFits(s, m);
        }
        var _ := Lfflush(lfptr, m);
      }
      u := Flushed(s, m);
      FlushedInv(s, m);
      assert Cbs() == u.cbs;
    }

    // ---- lfsetup ---------------------------------------------------------------------

    /** The index block of an empty file comes from the free list. */
    method TakeFirst(lfptr: Lflcblk, ghost m: nat, ghost s: St)
      requires Here(lfptr, m, s) && Settled(s, m)
      requires lfptr.lfinum == LF_INULL && lay.il[lfptr.lfdirptr] == [] && lay.il[FREEL] != []
      modifies this`disk, this`dir, this`dirdirty, this`lay, lfptr`lfinum, lfptr`lfiblock, lfptr`lfibdirty
      ensures Here(lfptr, m, NewFirst(s, m))
    {
      hide Cbs, Ibs;
      IbPlace(s, FREEL, 0);
      ghost var t := NewFirst(s, m);
      var ibnum := Lfiballoc();
      lfptr.lfiblock := Cleared(0);
      dir := dir.(files := dir.files[lfptr.lfdirptr := dir.files[lfptr.lfdirptr].(ilist := ibnum)]);
      lfptr.lfibdirty := true;
      lfptr.lfinum := ibnum;
      lay := t.lay;
      assert Blocks() == t.ibs && Sectors() == t.db && dir == t.dir;
      assert lfptr.Value() == t.cbs[m];
      assert Cbs() == t.cbs;
    }

    /** A new index block is linked behind the cached one, which goes to the disk. */
    method LinkNew(lfptr: Lflcblk)
      requires Mounted() && dirpresent && 0 <= dir.ifree < |Blocks()| && Int32(dir.ifree)
      requires 0 <= lfptr.lfinum < |Blocks()| && WfIb(lfptr.lfiblock)
      modifies this`disk, this`dir, this`dirdirty, lfptr`lfinum, lfptr`lfiblock, lfptr`lfibdirty, lfptr`lfdnum
      ensures Mounted() && Sectors() == old(Sectors())
      ensures Blocks() == old(Blocks())[old(lfptr.lfinum) := old(lfptr.lfiblock).(next := old(dir.ifree))]
      ensures dir == old(dir).(ifree := old(Blocks())[old(dir.ifree)].next)
      ensures lfptr.lfinum == old(dir.ifree) && lfptr.lfiblock == Cleared(old(lfptr.lfiblock.offset) + LF_IDATA)
      ensures lfptr.lfibdirty && lfptr.lfdnum == LF_DNULL
    {
      var ibnum := Lfiballoc();
      lfptr.lfiblock := lfptr.lfiblock.(next := ibnum);
      Lfibput(lfptr.lfinum, lfptr.lfiblock);
      lfptr.lfinum := ibnum;
      var newoffset := lfptr.lfiblock.offset + LF_IDATA;
      lfptr.lfiblock := Cleared(newoffset);
      lfptr.lfibdirty := true;
      lfptr.lfdnum := LF_DNULL;
    }

    /** The chain is extended by one index block from the free list. */
    method TakeNext(lfptr: Lflcblk, ghost m: nat, ghost s: St)
      requires Here(lfptr, m, s) && Settled(s, m)
      requires lfptr.lfinum != LF_INULL && lfptr.lfiblock.next == LF_INULL && lay.il[FREEL] != []
      requires Uint32(lfptr.lfiblock.offset)
      modifies this`disk, this`dir, this`dirdirty, this`lay, lfptr`lfinum, lfptr`lfiblock, lfptr`lfibdirty, lfptr`lfdnum
      ensures Here(lfptr, m, NewNext(s, m))
    {
      IbPlace(s, FREEL, 0);
      CachedIbFits(s, m);
      ghost var t := NewNext(s, m);
      LinkNew(lfptr);
      lay := t.lay;
      assert lfptr.Value() == t.cbs[m];
      assert Cbs() == t.cbs;
    }

    /** Index block number `q` of the file is read from the disk; in the loop over the
        chain the data block is forgotten. */
    method Fetch(lfptr: Lflcblk, ghost m: nat, ibnum: int, drop: bool, ghost q: nat, ghost s: St)
      requires Here(lfptr, m, s) && Settled(s, m)
      requires q < |lay.il[lfptr.lfdirptr]| && ibnum == lay.il[lfptr.lfdirptr][q]
      modifies lfptr`lfinum, lfptr`lfiblock, lfptr`lfdnum
      ensures Here(lfptr, m, LoadIb(s, m, q, drop))
    {
      IbPlace(s, lfptr.lfdirptr, q);
      ghost var t := LoadIb(s, m, q, drop);
      InArea(ibnum, lay.lo);
      lfptr.lfiblock := Lfibget(ibnum);
      lfptr.lfinum := ibnum;
      if drop {
        lfptr.lfdnum := LF_DNULL;
      }
      assert lfptr.Value() == t.cbs[m];
      assert Cbs() == t.cbs;
    }

    /** The first index block of the file, from the disk or the free list, is cached. */
    method FirstIndex(lfptr: Lflcblk, ghost m: nat, ghost s0: St, ghost s: St) returns (ghost t: St)
      requires Here(lfptr, m, s) && Settled(s, m) && Walking(s0, s, m)
      requires lfptr.lfinum == LF_INULL || lay.il[lfptr.lfdirptr] != []
      modifies this`disk, this`dir, this`dirdirty, this`lay, lfptr`lfinum, lfptr`lfiblock, lfptr`lfibdirty, lfptr`lfdnum
      ensures Here(lfptr, m, t) && InLoop(s0, t, m)
      ensures Inside(s0, m) ==> disk == old(disk) && dirdirty == old(dirdirty)
    {
      HeadOfChain(s, lfptr.lfdirptr);
      var ibnum := dir.files[lfptr.lfdirptr].ilist;
      if ibnum == LF_INULL {
        TookFirst(s0, s, m);
        t := NewFirst(s, m);
        TakeFirst(lfptr, m, s);
      } else {
        Fetched(s0, s, m, 0, false);
        t := LoadIb(s, m, 0, false);
        Fetch(lfptr, m, ibnum, false, 0, s);
      }
    }

    /** First step of lfsetup: some index block at or before the position is cached. */
    method StartIndex(lfptr: Lflcblk, ghost m: nat, ghost s0: St, ghost s: St) returns (ghost t: St)
      requires Here(lfptr, m, s) && Settled(s, m) && Walking(s0, s, m)
      modifies this`disk, this`dir, this`dirdirty, this`lay, lfptr`lfinum, lfptr`lfiblock, lfptr`lfibdirty, lfptr`lfdnum
      ensures Here(lfptr, m, t) && InLoop(s0, t, m)
      ensures Inside(s0, m) ==> disk == old(disk) && dirdirty == old(dirdirty)
    {
      if lfptr.lfinum == LF_INULL {
        t := FirstIndex(lfptr, m, s0, s);
      } else if lfptr.lfpos < lfptr.lfiblock.offset {
        LastOfChain(s, m);
        t := FirstIndex(lfptr, m, s0, s);
      } else {
        t := s;
      }
    }

    /** The body of the loop in lfsetup: on to the next index block, new or old. */
    method NextIndex(lfptr: Lflcblk, ghost m: nat, ghost s0: St, ghost s: St) returns (ghost t: St)
      requires Here(lfptr, m, s) && InLoop(s0, s, m) && lfptr.lfpos - lfptr.lfpos % LF_IDATA > lfptr.lfiblock.offset
      modifies this`disk, this`dir, this`dirdirty, this`lay, lfptr`lfinum, lfptr`lfiblock, lfptr`lfibdirty, lfptr`lfdnum
      ensures Here(lfptr, m, t) && InLoop(s0, t, m) && lfptr.lfiblock.offset > old(lfptr.lfiblock.offset)
      ensures Inside(s0, m) ==> disk == old(disk) && dirdirty == old(dirdirty)
    {
      LastOfChain(s, m);
      var ibnum := lfptr.lfiblock.next;
      if ibnum == LF_INULL {
        TookNext(s0, s, m);
        t := NewNext(s, m);
        TakeNext(lfptr, m, s);
      } else {
        ghost var q := lfptr.lfiblock.offset / LF_IDATA + 1;
        Fetched(s0, s, m, q, true);
        LoadIbInv(s, m, q, true);
        t := LoadIb(s, m, q, true);
        Fetch(lfptr, m, ibnum, true, q, s);
      }
    }

    /** Second step of lfsetup: along the chain until it covers the position. */
    method AdvanceIndex(lfptr: Lflcblk, ghost m: nat, ghost s0: St, ghost s: St) returns (ghost t: St)
      requires Here(lfptr, m, s) && InLoop(s0, s, m)
      modifies this`disk, this`dir, this`dirdirty, this`lay, lfptr`lfinum, lfptr`lfiblock, lfptr`lfibdirty, lfptr`lfdnum
      ensures Here(lfptr, m, t) && Covered(s0, t, m)
      ensures Inside(s0, m) ==> disk == old(disk) && dirdirty == old(dirdirty)
    {
      t := s;
      while lfptr.lfpos - lfptr.lfpos % LF_IDATA > lfptr.lfiblock.offset
        invariant Here(lfptr, m, t) && InLoop(s0, t, m)
        invariant Inside(s0, m) ==> disk == old(disk) && dirdirty == old(dirdirty)
        decreases lfptr.lfpos - lfptr.lfiblock.offset
      {
        t := NextIndex(lfptr, m, s0, t);
      }
      LoopDone(s0, t, m);
    }

    /** lfdballoc into the buffer, and the new number into the cached index block. */
    method AllocInto(lfptr: Lflcblk, dindex: int)
      requires Mounted() && dirpresent && lay.lo <= dir.dfree < lay.hi && 0 <= dindex < |lfptr.lfiblock.dba|
      modifies this`disk, this`dir, this`dirdirty
      modifies lfptr`lfiblock, lfptr`lfibdirty, lfptr`lfdnum, lfptr`lfdblock, lfptr`lfbyte
      ensures Mounted() && Blocks() == old(Blocks()) && Sectors() == old(Sectors())
      ensures dir == old(dir).(dfree := NextDb(old(Sectors())[old(dir.dfree) - lay.lo]))
      ensures lfptr.lfdnum == old(dir.dfree) && lfptr.lfdblock == Filled() && lfptr.lfbyte == lfptr.lfpos % LF_BLKSIZ
      ensures lfptr.lfiblock == old(lfptr.lfiblock).(dba := old(lfptr.lfiblock.dba)[dindex := old(dir.dfree)])
      ensures lfptr.lfibdirty
    {
      var dnum, buff := Lfdballoc();
      lfptr.lfdblock := buff;
      lfptr.lfiblock := lfptr.lfiblock.(dba := lfptr.lfiblock.dba[dindex := dnum]);
      lfptr.lfibdirty := true;
      lfptr.lfdnum := dnum;
      lfptr.lfbyte := lfptr.lfpos % LF_BLKSIZ;
    }

    method TakeDb(lfptr: Lflcblk, ghost m: nat, dindex: int, ghost s: St)
      requires Here(lfptr, m, s) && AtEnd(s, m) && dindex == lfptr.lfpos % LF_IDATA / LF_BLKSIZ
      modifies this`disk, this`dir, this`dirdirty, this`lay
      modifies lfptr`lfiblock, lfptr`lfibdirty, lfptr`lfdnum, lfptr`lfdblock, lfptr`lfbyte
      ensures Here(lfptr, m, Undirtied(NewDb(s, m), m))
    {
      DbPlace(s, FREEL, 0);
      ghost var t := Undirtied(NewDb(s, m), m);
      AllocInto(lfptr, dindex);
      lay := t.lay;
      assert lfptr.Value() == t.cbs[m];
      assert Cbs() == t.cbs;
    }

    /** The data block of the position is read unless the buffer already holds it. */
    method FetchDb(lfptr: Lflcblk, ghost m: nat, dnum: int, ghost s: St)
      requires Here(lfptr, m, s) && Settled(s, m) && lfptr.lfinum != LF_INULL
      requires lfptr.lfiblock.offset == lfptr.lfpos / LF_IDATA * LF_IDATA
      requires 0 <= lfptr.lfpos / LF_BLKSIZ < |lay.dl[lfptr.lfdirptr]|
      requires dnum == lay.dl[lfptr.lfdirptr][lfptr.lfpos / LF_BLKSIZ] && lay.lo <= dnum < lay.hi
      modifies lfptr`lfdnum, lfptr`lfdblock, lfptr`lfdbdirty, lfptr`lfbyte
      ensures Here(lfptr, m, LoadDb(s, m))
    {
      ghost var t := LoadDb(s, m);
      assert CbOk(s, m);
      assert disk[dnum] == s.db[dnum - lay.lo];
      if dnum != lfptr.lfdnum {
        lfptr.lfdblock := disk[dnum];
        lfptr.lfdbdirty := false;
      }
      lfptr.lfdnum := dnum;
      lfptr.lfbyte := lfptr.lfpos % LF_BLKSIZ;
      assert lfptr.Value() == t.cbs[m];
      assert Cbs() == t.cbs;
    }

    /** Last step of lfsetup: the data block of the position, read or newly allocated. */
    method FillBuffer(lfptr: Lflcblk, ghost m: nat, ghost s0: St, ghost s: St) returns (ghost t: St)
      requires Here(lfptr, m, s) && Covered(s0, s, m)
      modifies this`disk, this`dir, this`dirdirty, this`lay
      modifies lfptr`lfiblock, lfptr`lfibdirty, lfptr`lfdnum, lfptr`lfdblock, lfptr`lfdbdirty, lfptr`lfbyte
      ensures Here(lfptr, m, t) && SetUp(s0, t, m)
      ensures Inside(s0, m) ==> disk == old(disk) && dirdirty == old(dirdirty)
    {
      hide SetUp, SizesOk, FreeLists, Entries;
      var dindex := lfptr.lfpos % LF_IDATA / LF_BLKSIZ;
      var dnum := lfptr.lfiblock.dba[dindex];
      if dnum == LF_DNULL {
        FillNew(s0, s, m);
        t := Undirtied(NewDb(s, m), m);
        TakeDb(lfptr, m, dindex, s);
      } else {
        FillFromDisk(s0, s, m);
        InBuffer(s0, s, m);
        t := LoadDb(s, m);
        FetchDb(lfptr, m, dnum, s);
      }
    }

    method Lfsetup(lfptr: Lflcblk, ghost m: nat, ghost s0: St) returns (ghost t: St)
      requires Here(lfptr, m, s0) && Start(s0, m)
      modifies this`disk, this`dir, this`dirdirty, this`lay
      modifies lfptr`lfinum, lfptr`lfiblock, lfptr`lfibdirty, lfptr`lfdnum, lfptr`lfdblock, lfptr`lfdbdirty,
               lfptr`lfbyte
      ensures Here(lfptr, m, t) && SetUp(s0, t, m)
      ensures Inside(s0, m) && old(Synced()) ==> Synced()
    {
      hide SizesOk, Openers;
      AfterFlush(s0, m);
      t := FlushIf(lfptr.lfibdirty || lfptr.lfdbdirty, lfptr, m, s0);
      t := StartIndex(lfptr, m, s0, t);
      t := AdvanceIndex(lfptr, m, s0, t);
      t := FillBuffer(lfptr, m, s0, t);
    }

    // ---- Calls on an open file -------------------------------------------------------

    /** lfsetup if the byte pointer is not inside the buffer. */
    method Prepare(lfptr: Lflcblk, ghost m: nat, ghost s0: St) returns (ghost t: St)
      requires Here(lfptr, m, s0) && OpenAt(s0, m) && SizesOk(s0) && Room(s0, m)
      modifies this`disk, this`dir, this`dirdirty, this`lay
      modifies lfptr`lfinum, lfptr`lfiblock, lfptr`lfibdirty, lfptr`lfdnum, lfptr`lfdblock, lfptr`lfdbdirty,
               lfptr`lfbyte
      ensures Here(lfptr, m, t) && LfsSetup.Ready(s0, t, m)
      ensures Inside(s0, m) && old(Synced()) ==> Synced()
      ensures !Inside(s0, m) && old(Synced()) ==> Synced() || lfptr.lfpos >= dir.files[lfptr.lfdirptr].size
    {
      assert CbOk(s0, m);
      if lfptr.lfbyte >= LF_BLKSIZ {
        t := Lfsetup(lfptr, m, s0);
      } else {
        t := s0;
      }
    }

    /** The end of lflputc: the byte goes into the buffer and the size grows at the end. */
    method StoreByte(lfptr: Lflcblk, ghost m: nat, ch: byte, ghost s: St)
      requires Here(lfptr, m, s) && lfptr.lfbyte < LF_BLKSIZ && 0 <= lfptr.lfbyte
      requires 0 <= lfptr.lfdirptr < LF_NUM_DIR_ENT
      requires lfptr.lfpos >= dir.files[lfptr.lfdirptr].size ==> Uint32(dir.files[lfptr.lfdirptr].size + 1)
      modifies this`dir, this`dirdirty, lfptr`lfpos, lfptr`lfbyte, lfptr`lfdblock, lfptr`lfdbdirty
      ensures Here(lfptr, m, PutStep(s, m, ch))
      ensures old(Synced() || lfptr.lfpos >= dir.files[lfptr.lfdirptr].size) ==> Synced()
    {
      ghost var t := PutStep(s, m, ch);
      if lfptr.lfpos >= dir.files[lfptr.lfdirptr].size {
        dir := Grown(dir, lfptr.lfdirptr, lfptr.lfpos);
        dirdirty := true;
      }
      lfptr.lfdblock := lfptr.lfdblock[lfptr.lfbyte := ch];
      lfptr.lfbyte := lfptr.lfbyte + 1;
      lfptr.lfpos := lfptr.lfpos + 1;
      lfptr.lfdbdirty := true;
      assert lfptr.Value() == t.cbs[m];
      assert Cbs() == t.cbs;
    }

    /** lflputc once the file is known to be open. */
    method PutOpen(lfptr: Lflcblk, ghost m: nat, ch: byte, ghost s0: St) returns (r: int, ghost t: St)
      requires Here(lfptr, m, s0) && Good(s0) && lfptr.lfstate && Room(s0, m)
      modifies this`disk, this`dir, this`dirdirty, this`lay, lfptr
      ensures r == OK && Here(lfptr, m, t) && Stored(s0, t, m, [ch])
      ensures old(Synced()) ==> Synced()
    {
      if lfptr.lfpos > dir.files[lfptr.lfdirptr].size {
        return SYSERR, s0;
      }
      ghost var s := Prepare(lfptr, m, s0);
      PutIsStored(s0, s, m, ch);
      PutFits(s0, s, m, ch);
      t := PutStep(s, m, ch);
      StoreByte(lfptr, m, ch, s);
      r := OK;
    }

    method Lflputc(minor: nat, ch: byte) returns (r: int)
      requires Valid() && minor < NLFL
      requires lfltab[minor].lfstate ==> Room(State(), minor)
      modifies this`disk, this`dir, this`dirdirty, this`lay, lfltab[minor]
      ensures Valid() && lfltab[minor].lfstate == old(lfltab[minor].lfstate)
      ensures !lfltab[minor].lfstate ==> r == SYSERR && State() == old(State())
      ensures lfltab[minor].lfstate ==> r == OK && Stored(old(State()), State(), minor, [ch])
      ensures old(Synced()) ==> Synced()
    {
      var lfptr := lfltab[minor];
      if !lfptr.lfstate {
        return SYSERR;
      }
      ghost var t;
      r, t := PutOpen(lfptr, minor, ch, State());
    }

    /** The end of lflgetc: the byte from the buffer. */
    method LoadByte(lfptr: Lflcblk, ghost m: nat, ghost s: St) returns (onebyte: int)
      requires Here(lfptr, m, s) && 0 <= lfptr.lfbyte < LF_BLKSIZ
      modifies lfptr`lfpos, lfptr`lfbyte
      ensures Here(lfptr, m, GetStep(s, m)) && onebyte == old(lfptr.lfdblock[lfptr.lfbyte])
    {
      onebyte := lfptr.lfdblock[lfptr.lfbyte];
      lfptr.lfbyte := lfptr.lfbyte + 1;
      lfptr.lfpos := lfptr.lfpos + 1;
      assert Cbs() == GetStep(s, m).cbs;
    }

    /** lflgetc once the file is known to be open. */
    method GetOpen(lfptr: Lflcblk, ghost m: nat, ghost s0: St) returns (r: int, ghost t: St)
      requires Here(lfptr, m, s0) && Good(s0) && lfptr.lfstate
      modifies this`disk, this`dir, this`dirdirty, this`lay, lfptr
      ensures Here(lfptr, m, t) && (old(Synced()) ==> Synced())
      ensures !Inside(s0, m) ==> r == EOF && t == s0
      ensures Inside(s0, m) ==> Moved(s0, t, m, s0.cbs[m].pos + 1) && r == FileBytes(s0, s0.cbs[m].file)[s0.cbs[m].pos]
    {
      hide Entries, View, NamesOk, FreeLists, Mounted, DecEntry;
      if lfptr.lfpos >= dir.files[lfptr.lfdirptr].size {
        return EOF, s0;
      }
      ghost var s := Prepare(lfptr, m, s0);
      GetIsMoved(s0, s, m);
      t := GetStep(s, m);
      r := LoadByte(lfptr, m, s);
    }

    method Lflgetc(minor: nat) returns (r: int)
      requires Valid() && minor < NLFL
      modifies this`disk, this`dir, this`dirdirty, this`lay, lfltab[minor]
      ensures Valid() && lfltab[minor].lfstate == old(lfltab[minor].lfstate)
      ensures !lfltab[minor].lfstate ==> r == SYSERR && State() == old(State())
      ensures lfltab[minor].lfstate && !old(Inside(State(), minor)) ==> r == EOF && State() == old(State())
      ensures lfltab[minor].lfstate && old(Inside(State(), minor)) ==>
                && Moved(old(State()), State(), minor, old(lfltab[minor].lfpos) + 1)
                && r == FileBytes(old(State()), old(lfltab[minor].lfdirptr))[old(lfltab[minor].lfpos)]
      ensures old(Synced()) ==> Synced()
    {
      var lfptr := lfltab[minor];
      if !lfptr.lfstate {
        return SYSERR;
      }
      ghost var t;
      r, t := GetOpen(lfptr, minor, State());
    }

    method Lflseek(minor: nat, offset: int) returns (r: int)
      requires Valid() && minor < NLFL && Uint32(offset)
      modifies lfltab[minor]
      ensures Valid() && lfltab[minor].lfstate == old(lfltab[minor].lfstate)
      ensures lfltab[minor].lfdirptr == old(lfltab[minor].lfdirptr)
      ensures r == OK || r == SYSERR
      ensures r == OK <==> old(lfltab[minor].lfstate) && offset <= dir.files[lfltab[minor].lfdirptr].size
      ensures r == OK ==> Moved(old(State()), State(), minor, offset)
      ensures r == SYSERR ==> State() == old(State())
    {
      var lfptr := lfltab[minor];
      if !lfptr.lfstate {
        return SYSERR;
      }
      ghost var s := State();
      if offset > dir.files[lfptr.lfdirptr].size {
        return SYSERR;
      }
      SeekIsMoved(s, minor, offset);
      ghost var t := SeekStep(s, minor, offset);
      lfptr.lfpos := offset;
      lfptr.lfbyte := LF_BLKSIZ;
      assert lfptr.Value() == t.cbs[minor];
      assert Cbs() == t.cbs;
      assert State() == t;
      return OK;
    }

    /** One turn of the loop in lflread. */
    method ReadNext(lfptr: Lflcblk, ghost m: nat, ghost s0: St, ghost s: St, ghost buff: seq<byte>)
      returns (nxtbyte: int, ghost t: St)
      requires Here(lfptr, m, s) && ReadRun(s0, s, m, buff)
      modifies this`disk, this`dir, this`dirdirty, this`lay, lfptr
      ensures Here(lfptr, m, t) && (old(Synced()) ==> Synced())
      ensures nxtbyte == EOF ==> !Inside(s, m) && t == s
      ensures nxtbyte != EOF ==> 0 <= nxtbyte < 256 && ReadRun(s0, t, m, buff + [nxtbyte as byte])
    {
      RunReads(s0, s, m, buff);
      nxtbyte, t := GetOpen(lfptr, m, s);
      if nxtbyte != EOF {
        ReadGrows(s0, s, t, m, buff, nxtbyte);
      }
    }

    /** The loop of lflread on an open file. */
    method ReadLoop(lfptr: Lflcblk, ghost m: nat, count: nat, ghost s0: St)
      returns (r: int, buff: seq<byte>, ghost t: St)
      requires Here(lfptr, m, s0) && ReadRun(s0, s0, m, [])
      modifies this`disk, this`dir, this`dirdirty, this`lay, lfptr
      ensures Here(lfptr, m, t) && ReadRun(s0, t, m, buff)
      ensures |buff| <= count && (|buff| == count || !Inside(t, m))
      ensures r == if buff == [] && count > 0 then EOF else |buff|
      ensures old(Synced()) ==> Synced()
    {
      buff, t := [], s0;
      var numread := 0;
      while numread < count
        invariant 0 <= numread <= count && numread == |buff|
        invariant Here(lfptr, m, t) && ReadRun(s0, t, m, buff) && (old(Synced()) ==> Synced())
      {
        var nxtbyte;
        nxtbyte, t := ReadNext(lfptr, m, s0, t, buff);
        if nxtbyte == EOF {
          return if numread == 0 then EOF else numread, buff, t;
        }
        buff := buff + [nxtbyte as byte];
        numread := numread + 1;
      }
      r := numread;
    }

    /** On a device that is not open the first lflgetc, if any, ends the loop. */
    method Lflread(minor: nat, count: int) returns (r: int, buff: seq<byte>)
      requires Valid() && minor < NLFL && Int32(count)
      modifies this`disk, this`dir, this`dirdirty, this`lay, lfltab[minor]
      ensures Valid() && lfltab[minor].lfstate == old(lfltab[minor].lfstate) && (old(Synced()) ==> Synced())
      ensures count < 0 || (count > 0 && !lfltab[minor].lfstate) ==>
                r == SYSERR && buff == [] && State() == old(State())
      ensures count == 0 && !lfltab[minor].lfstate ==> r == 0 && buff == [] && State() == old(State())
      ensures count >= 0 && lfltab[minor].lfstate ==>
                ReadDone(old(State()), State(), minor, count, buff)
                && r == if buff == [] && count > 0 then EOF else |buff|
    {
      buff := [];
      if count < 0 {
        return SYSERR, buff;
      }
      if !lfltab[minor].lfstate {
        return if count > 0 then SYSERR else 0, buff;
      }
      ghost var s0, t := State(), State();
      r, buff, t := ReadLoop(lfltab[minor], minor, count, s0);
      RunDone(s0, t, minor, buff, count);
    }

    /** One turn of the loop in lflwrite. */
    method WriteNext(lfptr: Lflcblk, ghost m: nat, buff: seq<byte>, i: nat, ghost count: nat, ghost s0: St, ghost s: St)
      returns (r: int, ghost t: St)
      requires i < count <= |buff| && Here(lfptr, m, s) && WriteRun(s0, s, m, buff, i, count)
      modifies this`disk, this`dir, this`dirdirty, this`lay, lfptr
      ensures r == OK && Here(lfptr, m, t) && (old(Synced()) ==> Synced())
      ensures WriteRun(s0, t, m, buff, i + 1, count)
    {
      RunRoom(s0, s, m, buff, i, count);
      r, t := PutOpen(lfptr, m, buff[i], s);
    }

    /** The loop of lflwrite on an open file. */
    method WriteLoop(lfptr: Lflcblk, ghost m: nat, buff: seq<byte>, count: nat, ghost s0: St)
      returns (r: int, ghost t: St)
      requires count <= |buff| && Here(lfptr, m, s0) && WriteRun(s0, s0, m, buff, 0, count)
      modifies this`disk, this`dir, this`dirdirty, this`lay, lfptr
      ensures r == count && Here(lfptr, m, t) && WriteRun(s0, t, m, buff, count, count)
      ensures old(Synced()) ==> Synced()
    {
      hide Good, OpenAt;
      t := s0;
      var i := 0;
      while i < count
        invariant 0 <= i <= count
        invariant Here(lfptr, m, t) && WriteRun(s0, t, m, buff, i, count) && (old(Synced()) ==> Synced())
      {
        r, t := WriteNext(lfptr, m, buff, i, count, s0, t);
        i := i + 1;
      }
      r := count;
    }

    /** On a device that is not open the first lflputc, if any, ends the loop. */
    method Lflwrite(minor: nat, buff: seq<byte>, count: int) returns (r: int)
      requires Valid() && minor < NLFL && Int32(count) && count <= |buff|
      requires lfltab[minor].lfstate && count >= 0 ==> RoomFor(State(), minor, count)
      modifies this`disk, this`dir, this`dirdirty, this`lay, lfltab[minor]
      ensures Valid() && lfltab[minor].lfstate == old(lfltab[minor].lfstate) && (old(Synced()) ==> Synced())
      ensures count < 0 || (count > 0 && !lfltab[minor].lfstate) ==> r == SYSERR && State() == old(State())
      ensures count == 0 && !lfltab[minor].lfstate ==> r == 0 && State() == old(State())
      ensures count >= 0 && lfltab[minor].lfstate ==> r == count && Stored(old(State()), State(), minor, buff[..count])
    {
      if count < 0 {
        return SYSERR;
      }
      if !lfltab[minor].lfstate {
        return if count > 0 then SYSERR else 0;
      }
      ghost var s0, t := State(), State();
      RunStarts(s0, minor, buff, count);
      r, t := WriteLoop(lfltab[minor], minor, buff, count, s0);
      RunWrites(s0, t, minor, buff, count, count);
    }

    // ---- lftruncate ------------------------------------------------------------------

    /** The disk and the head of the free data list are `p` index and `n` data blocks into
        the walk over file `f` of `s`; the rest of the directory is `d`. */
    ghost predicate Clearing(s: St, f: int, p: nat, n: nat, d: Dir)
      reads this
    {
      && Mounted() && dirpresent && lay == s.lay && Shape(s) && 0 <= f < LF_NUM_DIR_ENT
      && Walked(s, f, p, n, Blocks(), Sectors(), dir.dfree) && dir == d.(dfree := dir.dfree)
    }

    /** The inner loop: the data blocks of index block `p`. */
    method FreeDbs(iblock: IBlk, rest: seq<byte>, ghost s: St, ghost f: int, ghost p: nat, ghost n0: nat, ghost d: Dir)
      returns (cleared: IBlk, ghost n: nat)
      requires |rest| == 508 && Clearing(s, f, p, n0, d) && WfIb(iblock)
      requires Says(iblock, s.lay.il[f], s.lay.dl[f], p) && n0 == Min(16 * p, |s.lay.dl[f]|)
      modifies this`disk, this`dir
      ensures Clearing(s, f, p, n, d) && n == Min(16 * (p + 1), |s.lay.dl[f]|)
      ensures WfIb(cleared) && cleared.next == iblock.next
    {
      hide Walked;
      cleared := iblock;
      n := n0;
      var i := 0;
      while i < LF_IBLEN
        invariant 0 <= i <= LF_IBLEN && n == Min(16 * p + i, |s.lay.dl[f]|)
        invariant Clearing(s, f, p, n, d) && WfIb(cleared) && cleared.next == iblock.next
        invariant forall k :: i <= k < LF_IBLEN ==> cleared.dba[k] == iblock.dba[k]
      {
        var nextdb := cleared.dba[i];
        assert nextdb == At(s.lay.dl[f], 16 * p + i);
        if 16 * p + i < |s.lay.dl[f]| {
          DbPlace(s, f, n);
        }
        if nextdb != LF_DNULL {
          DecEncDb(dir.dfree, rest);
          WalkFreesDb(s, f, p, n, Blocks(), Sectors(), dir.dfree, EncDb(dir.dfree, rest));
          Lfdbfree(nextdb, rest);
          n := n + 1;
        }
        cleared := cleared.(dba := cleared.dba[i := LF_DNULL]);
        i := i + 1;
      }
    }

    /** The body of the outer loop: one index block and its data blocks are freed. */
    method FreeIb(nextib: int, ifree: int, rest: seq<byte>, ghost s: St, ghost f: int, ghost p: nat, ghost n0: nat,
                  ghost d: Dir)
      returns (next: int, ghost n: nat)
      requires |rest| == 508 && Clearing(s, f, p, n0, d) && StInv(s) && p < |s.lay.il[f]|
      requires s.lay.opener[f] >= 0 && !s.cbs[s.lay.opener[f]].ibdirty
      requires nextib == s.lay.il[f][p] && ifree == s.dir.ifree && n0 == Min(16 * p, |s.lay.dl[f]|)
      modifies this`disk, this`dir
      ensures Clearing(s, f, p + 1, n, d) && n == Min(16 * (p + 1), |s.lay.dl[f]|)
      ensures next == At(s.lay.il[f] + s.lay.il[FREEL], p + 1)
    {
      WalkGoesOn(s, f, p);
      WalkReads(s, f, p, n0, Blocks(), Sectors(), dir.dfree);
      var iblock := Lfibget(nextib);
      iblock, n := FreeDbs(iblock, rest, s, f, p, n0, d);
      iblock := iblock.(offset := 0);
      if iblock.next == LF_INULL {
        iblock := iblock.(next := ifree);
      }
      WalkWritesIb(s, f, p, n, Blocks(), Sectors(), dir.dfree, iblock);
      Lfibput(nextib, iblock);
      next := iblock.next;
    }

    /** The outer loop: along the chain until the block that the last one was made to
        point at, the head of the old free list. */
    method FreeChain(firstib: int, ifree: int, rest: seq<byte>, ghost s: St, ghost f: int, ghost d: Dir)
      requires |rest| == 508 && Clearing(s, f, 0, 0, d) && StInv(s) && s.lay.il[f] != []
      requires s.lay.opener[f] >= 0 && !s.cbs[s.lay.opener[f]].ibdirty && f < s.dir.nfiles
      requires firstib == s.lay.il[f][0] && ifree == s.dir.ifree
      modifies this`disk, this`dir
      ensures Clearing(s, f, |s.lay.il[f]|, |s.lay.dl[f]|, d)
    {
      ghost var p, n := 0, 0;
      var nextib := firstib;
      while nextib != ifree
        invariant p <= |s.lay.il[f]| && n == Min(16 * p, |s.lay.dl[f]|) && Clearing(s, f, p, n, d)
        invariant nextib == At(s.lay.il[f] + s.lay.il[FREEL], p)
        decreases |s.lay.il[f]| - p
      {
        WalkGoesOn(s, f, p);
        nextib, n := FreeIb(nextib, ifree, rest, s, f, p, n, d);
        p := p + 1;
      }
      WalkGoesOn(s, f, p);
    }

    /** The directory entry is cleared, the blocks are freed and the chain becomes the
        front of the free index list. */
    method FreeFile(lfptr: Lflcblk, rest: seq<byte>, ghost u: St, ghost m: nat)
      requires |rest| == 508 && Mounted() && dirpresent && OpenAt(u, m) && !u.cbs[m].ibdirty
      requires Blocks() == u.ibs && Sectors() == u.db && dir == u.dir && lay == u.lay
      requires lfptr.lfdirptr == u.cbs[m].file && lay.il[lfptr.lfdirptr] != []
      modifies this`disk, this`dir, this`dirdirty, this`lay
      ensures Mounted() && WalkedDisk(u, u.cbs[m].file, Blocks(), Sectors())
      ensures dir == TruncDir(u, u.cbs[m].file) && lay == Emptied(u.lay, u.cbs[m].file) && dirdirty
    {
      hide Entries;
      ghost var f := lfptr.lfdirptr;
      HeadOfChain(u, f);
      WalkStarts(u, f);
      var ifree := dir.ifree;
      var firstib := dir.files[lfptr.lfdirptr].ilist;
      dir := dir.(files := dir.files[lfptr.lfdirptr := dir.files[lfptr.lfdirptr].(ilist := LF_INULL, size := 0)]);
      dirdirty := true;
      FreeChain(firstib, ifree, rest, u, f, dir);
      WalkEnds(u, f, Blocks(), Sectors(), dir.dfree);
      dir := dir.(ifree := firstib);
      dirdirty := true;
      lay := Emptied(lay, f);
    }

    /** lftruncate of a file that is not empty, after the flush. */
    method TruncateFlushed(lfptr: Lflcblk, rest: seq<byte>, ghost m: nat, ghost u: St)
      returns (ghost ibs: seq<IBlk>, ghost db: seq<Sector>)
      requires |rest| == 508 && Here(lfptr, m, u) && OpenAt(u, m) && !lfptr.lfibdirty && lay.il[lfptr.lfdirptr] != []
      modifies this`disk, this`dir, this`dirdirty, this`lay
      modifies lfptr`lfpos, lfptr`lfinum, lfptr`lfdnum, lfptr`lfbyte
      ensures WalkedDisk(u, u.cbs[m].file, ibs, db) && Here(lfptr, m, TruncStep(u, m, ibs, db)) && dirdirty
    {
      hide Entries, Cbs, Mounted, Cached, Ibs;
      lfptr.lfpos := 0;
      lfptr.lfinum := LF_INULL;
      lfptr.lfdnum := LF_DNULL;
      lfptr.lfbyte := LF_BLKSIZ;
      FreeFile(lfptr, rest, u, m);
      ibs, db := Blocks(), Sectors();
      assert Cbs() == TruncStep(u, m, ibs, db).cbs;
    }

    method Lftruncate(lfptr: Lflcblk, rest: seq<byte>, ghost m: nat, ghost s: St) returns (r: int, ghost t: St)
      requires |rest| == 508 && Here(lfptr, m, s) && Good(s) && lfptr.lfstate
      modifies this`disk, this`dir, this`dirdirty, this`lay
      modifies lfptr`lfpos, lfptr`lfinum, lfptr`lfdnum, lfptr`lfbyte, lfptr`lfibdirty, lfptr`lfdbdirty
      ensures r == OK && Here(lfptr, m, t) && (old(Synced()) ==> Synced())
      ensures if old(dir.files[lfptr.lfdirptr].size) == 0 then t == s else Truncated(s, t, m)
    {
      if dir.files[lfptr.lfdirptr].size == 0 {
        return OK, s;
      }
      FlushedInv(s, m);
      ghost var u := FlushIf(lfptr.lfibdirty || lfptr.lfdbdirty, lfptr, m, s);
      ghost var ibs, db := TruncateFlushed(lfptr, rest, m, u);
      TruncIsTruncated(s, u, m, ibs, db);
      t := TruncStep(u, m, ibs, db);
      r := OK;
    }

    /** lflcontrol with function LF_CTL_TRUNC, and with any other function. */
    method Lflcontrol(minor: nat, truncate: bool, rest: seq<byte>) returns (r: int)
      requires Valid() && minor < NLFL && |rest| == 508
      modifies this`disk, this`dir, this`dirdirty, this`lay, lfltab[minor]
      ensures Valid() && lfltab[minor].lfstate == old(lfltab[minor].lfstate) && (old(Synced()) ==> Synced())
      ensures r == OK <==> lfltab[minor].lfstate && truncate
      ensures r != OK ==> r == SYSERR && State() == old(State())
      ensures r == OK && old(FileBytes(State(), lfltab[minor].lfdirptr)) == [] ==> State() == old(State())
      ensures r == OK && old(FileBytes(State(), lfltab[minor].lfdirptr)) != [] ==>
                Truncated(old(State()), State(), minor)
    {
      if !lfltab[minor].lfstate || !truncate {
        return SYSERR;
      }
      ghost var t;
      r, t := Lftruncate(lfltab[minor], rest, minor, State());
    }

    // ---- lflclose --------------------------------------------------------------------

    method CloseFlushed(lfptr: Lflcblk, ghost m: nat, ghost u: St)
      requires Here(lfptr, m, u) && OpenAt(u, m)
      modifies this`lay, lfptr`lfstate
      ensures Here(lfptr, m, CloseStep(u, m))
    {
      lfptr.lfstate := false;
      lay := CloseStep(u, m).lay;
      assert Cbs() == CloseStep(u, m).cbs;
    }

    method Lflclose(minor: nat) returns (r: int)
      requires Valid() && minor < NLFL
      modifies this`disk, this`dirdirty, this`lay, lfltab[minor]
      ensures Valid() && !lfltab[minor].lfstate && (old(Synced()) ==> Synced())
      ensures r == if old(lfltab[minor].lfstate) then OK else SYSERR
      ensures r == SYSERR ==> State() == old(State())
      ensures r == OK ==> !dirdirty && Closed(old(State()), State(), minor)
    {
      hide StInv, SizesOk, NamesOk, FileBytes, Flushed, CloseStep;
      var lfptr := lfltab[minor];
      if !lfptr.lfstate {
        return SYSERR;
      }
      ghost var s := State();
      FlushedInv(s, minor);
      ghost var u := FlushIf(dirdirty || lfptr.lfdbdirty || lfptr.lfibdirty, lfptr, minor, s);
      CloseIsClosed(s, u, minor);
      CloseFlushed(lfptr, minor, u);
      r := OK;
    }

    // ---- lfsopen ---------------------------------------------------------------------

    /** The search over the control blocks: SYSERR if the name is open or none is free. */
    method FindDevice(name: seq<byte>) returns (lfnext: int)
      requires Valid() && 0 !in name
      ensures lfnext == SYSERR || (0 <= lfnext < NLFL && !lfltab[lfnext].lfstate)
      ensures lfnext == SYSERR <==> NameOpen(Cbs(), name) || forall m :: 0 <= m < NLFL ==> lfltab[m].lfstate
    {
      ghost var s := State();
      lfnext := SYSERR;
      var i := 0;
      while i < NLFL
        invariant 0 <= i <= NLFL
        invariant lfnext == SYSERR || (0 <= lfnext < NLFL && !lfltab[lfnext].lfstate)
        invariant lfnext == SYSERR ==> forall m :: 0 <= m < i ==> lfltab[m].lfstate
        invariant forall m :: 0 <= m < i && lfltab[m].lfstate ==> CStr(lfltab[m].lfname) != name
      {
        var lfptr := lfltab[i];
        if !lfptr.lfstate {
          if lfnext == SYSERR {
            lfnext := i;
          }
        } else {
          assert s.cbs[i].used;
          var same := StrEq(name, lfptr.lfname);
          if same {
            assert Cbs()[i].used && CStr(Cbs()[i].name) == name;
            return SYSERR;
          }
        }
        i := i + 1;
      }
    }

    /** The search over the directory; `i` is past the last entry when the name is new. */
    method FindEntry(name: seq<byte>) returns (found: bool, i: int)
      requires Valid() && dirpresent && 0 !in name
      ensures found <==> NameKnown(dir, name)
      ensures 0 <= i <= dir.nfiles && (found ==> i < dir.nfiles && CStr(dir.files[i].name) == name)
    {
      ghost var s := State();
      found, i := false, 0;
      while i < dir.nfiles
        invariant 0 <= i <= dir.nfiles
        invariant forall f :: 0 <= f < i ==> CStr(dir.files[f].name) != name
      {
        var same := StrEq(name, dir.files[i].name);
        if same {
          found := true;
          return;
        }
        i := i + 1;
      }
    }

    /** Case 1 of lfsopen: the name is added to the directory as an empty file. */
    method AddEntry(name: seq<byte>)
      requires Valid() && dirpresent && 0 !in name && |name| < LF_NAME_LEN
      requires !NameKnown(dir, name) && dir.nfiles < LF_NUM_DIR_ENT
      modifies this`dir
      ensures Valid() && dir.nfiles == old(dir.nfiles) + 1
      ensures Created(old(State()), State(), name)
    {
      ghost var s := State();
      var to := StrCpy(name, dir.files[dir.nfiles].name);
      CreateStepInv(s, to);
      var k := dir.nfiles;
      dir := dir.(nfiles := k + 1, files := dir.files[k := Entry(0, LF_INULL, to)]);
      assert State() == CreateStep(s, to);
    }

    /** lfsopen initialises control block `m` for entry `i` of the directory. */
    method SetDevice(lfptr: Lflcblk, ghost m: nat, i: int, name: seq<byte>, mode: int, ghost s: St)
      requires Here(lfptr, m, s) && Good(s) && !lfptr.lfstate
      requires 0 !in name && |name| < LF_NAME_LEN && 0 <= i < dir.nfiles && CStr(dir.files[i].name) == name
      requires !NameOpen(s.cbs, name)
      modifies this`lay, lfptr
      ensures exists t :: Here(lfptr, m, t) && OpenedAs(s, t, m, i, name)
    {
      assert i < |s.lay.opener|;
      hide OpenedAs, StInv, CStr, Terminated, NameOpen, SizesOk, NamesOk;
      var to := StrCpy(name, lfptr.lfname);
      NotOpen(s, i, name);
      OpenIsOpened(s, m, i, name, to);
      Claim(lfptr, m, i, mode, to, s);
    }

    /** Its fields and the opener of the entry. */
    method Claim(lfptr: Lflcblk, ghost m: nat, i: int, mode: int, name: NameBuf, ghost s: St)
      requires Here(lfptr, m, s) && 0 <= i < |s.lay.opener|
      modifies this`lay, lfptr
      ensures |s.cbs| == NLFL && Here(lfptr, m, OpenStep(s, m, i, name))
    {
      hide Ibs, DecDir;
      lfptr.Opened(i, mode, name);
      lay := lay.(opener := lay.opener[i := m]);
      assert Cbs() == OpenStep(s, m, i, name).cbs;
    }

    /** The directory is read into memory by the first open. */
    method LoadDirectory()
      requires Valid()
      modifies this`dir, this`dirpresent
      ensures Valid() && dirpresent && State() == old(State()) && (old(Synced()) ==> Synced())
    {
      if !dirpresent {
        dir := DecDir(disk[0]);
        dirpresent := true;
      }
      assert State() == old(State());
    }

    /** The middle of lfsopen: the entry of the name, found or added, if the mode allows. */
    method FindOrAdd(name: seq<byte>, mode: OpenMode) returns (i: int, ghost u: St)
      requires Valid() && dirpresent && 0 !in name && |name| < LF_NAME_LEN && mode.Mode?
      modifies this`dir
      ensures Valid() && u == State()
      ensures i == SYSERR <==> Refused(old(dir), name, mode.mustExist, mode.mustNotExist)
      ensures i == SYSERR ==> u == old(State())
      ensures i != SYSERR ==> 0 <= i < dir.nfiles && CStr(dir.files[i].name) == name
      ensures i != SYSERR ==> if NameKnown(old(dir), name) then u == old(State()) else Created(old(State()), u, name)
    {
      var found;
      found, i := FindEntry(name);
      u := State();
      if !found {
        if mode.mustExist || dir.nfiles >= LF_NUM_DIR_ENT {
          i := SYSERR;
        } else {
          i := dir.nfiles;
          AddEntry(name);
          u := State();
        }
      } else if mode.mustNotExist {
        i := SYSERR;
      }
    }

    /** The rest of lfsopen, on the free control block `lfnext`. */
    method OpenEntry(lfnext: int, name: seq<byte>, mode: OpenMode) returns (r: int)
      requires Valid() && dirpresent && 0 !in name && |name| < LF_NAME_LEN && mode.Mode?
      requires 0 <= lfnext < NLFL && !lfltab[lfnext].lfstate && !NameOpen(Cbs(), name)
      modifies this`dir, this`lay, lfltab[lfnext]
      ensures Valid() && dirpresent
      ensures r == if Refused(old(dir), name, mode.mustExist, mode.mustNotExist) then SYSERR else lfnext
      ensures r == SYSERR ==> State() == old(State())
      ensures r != SYSERR ==> OpensFile(old(State()), State(), r, name)
      ensures r != SYSERR && NameKnown(old(dir), name) ==> dir == old(dir)
      ensures r != SYSERR && !NameKnown(old(dir), name) ==> dir.nfiles == old(dir.nfiles) + 1
    {
      hide StInv, SizesOk, NamesOk, FileBytes, Refused, NameKnown;
      ghost var s0 := State();
      var i;
      ghost var u;
      i, u := FindOrAdd(name, mode);
      if i == SYSERR { return SYSERR; }
      SetDevice(lfltab[lfnext], lfnext, i, name, mode.rw, u);
      r := lfnext;
      assert if NameKnown(s0.dir, name) then u == s0 else Created(s0, u, name);
    }

    method Lfsopen(name: seq<byte>, mode: OpenMode) returns (r: int)
      requires Valid() && 0 !in name
      modifies this`dir, this`dirpresent, this`lay, lfltab
      ensures Valid() && dirdirty == old(dirdirty)
      ensures r == SYSERR || 0 <= r < NLFL
      ensures r == SYSERR <==>
                || |name| >= LF_NAME_LEN || mode.BadMode? || NameOpen(old(Cbs()), name)
                || (forall m :: 0 <= m < NLFL ==> old(lfltab[m].lfstate))
                || Refused(old(Directory()), name, mode.mustExist, mode.mustNotExist)
      ensures r == SYSERR ==> State() == old(State())
      ensures r != SYSERR ==> OpensFile(old(State()), State(), r, name)
      // a created entry reaches the disk only if the directory was dirty already
      ensures old(Synced()) && r != SYSERR ==> (Synced() <==> dirdirty || NameKnown(old(Directory()), name))
    {
      hide StInv, SizesOk, NamesOk, FileBytes, OpensFile, Refused, NameKnown;
      r := SYSERR;
      if |name| < LF_NAME_LEN && mode.Mode? {
        var lfnext := FindDevice(name);
        if lfnext != SYSERR {
          LoadDirectory();
          r := OpenEntry(lfnext, name, mode);
        }
      }
    }
  }

  /** A restart with every file closed and the directory clean loses nothing: what is on
      the disk is the same files with the same contents. */
  method Reboot(fs: LocalFs) returns (again: LocalFs)
    requires fs.Valid() && forall m :: 0 <= m < NLFL ==> !fs.lfltab[m].lfstate
    requires fs.Synced() && (fs.dirpresent ==> !fs.dirdirty)
    ensures fresh(again) && again.Valid() && again.disk == fs.disk && again.Directory() == fs.Directory()
    ensures forall f :: 0 <= f < fs.Directory().nfiles ==> FileBytes(again.State(), f) == FileBytes(fs.State(), f)
  {
    hide Good, FileBytes;
    again := new LocalFs.Lfsinit(fs.disk, fs.lay);
    ghost var s, t := fs.State(), again.State();
    assert t == s.(cbs := t.cbs);
    Remounted(s, t.cbs);
  }

  /** Does the C string in `buf` equal `name`? */
  method StrEq(name: seq<byte>, buf: seq<byte>) returns (eq: bool)
    requires 0 !in name && Terminated(buf)
    ensures eq <==> CStr(buf) == name
  {
    var i := 0;
    while i < |name|
      invariant i <= |name| && i < |buf| && buf[..i] == name[..i]
    {
      CStrFrom(buf, i);
      if name[i] != buf[i] {
        CStrDiffers(name, buf, i);
        return false;
      }
      assert name[i] in name;
      StillTerminated(name, buf, i + 1);
      i := i + 1;
    }
    CStrFrom(buf, i);
    CStrIs(name, buf);
    return buf[i] == 0;
  }

  /** The bytes of `name` and a null, over the start of `buf`. */
  method StrCpy(name: seq<byte>, buf: seq<byte>) returns (to: seq<byte>)
    requires 0 !in name && |name| < |buf|
    ensures |to| == |buf| && Terminated(to) && CStr(to) == name
  {
    to := buf;
    var i := 0;
    while i < |name|
      invariant i <= |name| && |to| == |buf| && to[..i] == name[..i]
    {
      to := to[i := name[i]];
      i := i + 1;
    }
    to := to[i := 0];
    CopiedIs(name, to);
  }
}
