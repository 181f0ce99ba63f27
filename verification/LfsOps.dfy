/** What the calls on an open file do to the plain picture of the file system: one byte
    sequence per directory entry and a position per open file. */
module LfsOps {
  import opened Common
  import opened LfsLayout
  import opened LfsState
  import opened LfsSteps
  import opened LfsSetup

  /** `data` laid over `bs` from position `pos`, past the end if need be. */
  function WriteAt(bs: seq<byte>, pos: nat, data: seq<byte>): (r: seq<byte>)
    requires pos <= |bs|
    ensures |r| == Max(|bs|, pos + |data|)
  {
    bs[..pos] + data + (if pos + |data| < |bs| then bs[pos + |data|..] else [])
  }

  lemma WriteOne(bs: seq<byte>, pos: nat, ch: byte)
    requires pos <= |bs|
    ensures PutAt(bs, pos, ch) == WriteAt(bs, pos, [ch])
  {
  }

  lemma WriteMore(bs: seq<byte>, pos: nat, a: seq<byte>, b: seq<byte>)
    requires pos <= |bs|
    ensures WriteAt(WriteAt(bs, pos, a), pos + |a|, b) == WriteAt(bs, pos, a + b)
  {
  }

  /** Same files under the same names; only control block `m` has moved. */
  ghost predicate SameFiles(s: St, t: St, m: int) {
    && Good(s) && Good(t) && 0 <= m < NLFL && s.cbs[m].used && t.cbs[m].used
    && t.dir.nfiles == s.dir.nfiles && t.cbs[m].file == s.cbs[m].file && t.cbs[m].name == s.cbs[m].name
    && (forall g :: 0 <= g < LF_NUM_DIR_ENT ==> t.dir.files[g].name == s.dir.files[g].name)
    && (forall i :: 0 <= i < NLFL && i != m ==> t.cbs[i] == s.cbs[i])
  }

  /** `data` has been written at the position of `m`, and nothing else has changed. */
  ghost predicate Stored(s: St, t: St, m: int, data: seq<byte>) {
    && SameFiles(s, t, m) && FreeKept(s.lay, t.lay, s.cbs[m].file)
    && t.cbs[m].pos == s.cbs[m].pos + |data|
    && (forall g :: 0 <= g < s.dir.nfiles ==>
          FileBytes(t, g) == if g == s.cbs[m].file then WriteAt(FileBytes(s, g), s.cbs[m].pos, data)
              else FileBytes(s, g))
  }

  /** The position of `m` has moved to `pos`, and no file has changed. */
  ghost predicate Moved(s: St, t: St, m: int, pos: int) {
    && SameFiles(s, t, m) && t.cbs[m].pos == pos
    && (forall g :: 0 <= g < s.dir.nfiles ==> FileBytes(t, g) == FileBytes(s, g))
  }

  lemma PutSame(s0: St, s: St, m: int, ch: byte)
    requires Good(s0) && Ready(s0, s, m) && |s.cbs| == NLFL && s.cbs[m].at < LF_BLKSIZ
    requires OpenAt(PutStep(s, m, ch), m) && Good(PutStep(s, m, ch))
    ensures SameFiles(s0, PutStep(s, m, ch), m) && FreeKept(s0.lay, PutStep(s, m, ch).lay, s0.cbs[m].file)
  {
  }

  lemma PutIsStored(s0: St, s: St, m: int, ch: byte)
    requires Good(s0) && Ready(s0, s, m)
    ensures |s.cbs| == NLFL && s.cbs[m].at < LF_BLKSIZ && 0 <= s.cbs[m].file < |s.dir.files|
    ensures Stored(s0, PutStep(s, m, ch), m, [ch])
  {
    PutDone(s0, s, m, ch);
    PutKeeps(s0, s, m, ch);
    PutSame(s0, s, m, ch);
    var f := s0.cbs[m].file;
    WriteOne(FileBytes(s0, f), s0.cbs[m].pos, ch);
  }

  lemma PutFits(s0: St, s: St, m: int, ch: byte)
    requires Good(s0) && Ready(s0, s, m)
    ensures |s.cbs| == NLFL && 0 <= s.cbs[m].at < LF_BLKSIZ && 0 <= s.cbs[m].file < LF_NUM_DIR_ENT <= |s.dir.files|
    ensures s.cbs[m].pos >= s.dir.files[s.cbs[m].file].size ==> Uint32(s.dir.files[s.cbs[m].file].size + 1)
  {
    PutKeeps(s0, s, m, ch);
  }

  lemma GetIsMoved(s0: St, s: St, m: int)
    requires Good(s0) && Ready(s0, s, m) && s0.cbs[m].pos < s0.dir.files[s0.cbs[m].file].size
    ensures |s.cbs| == NLFL && s.cbs[m].at < LF_BLKSIZ
    ensures Moved(s0, GetStep(s, m), m, s0.cbs[m].pos + 1)
    ensures s.cbs[m].dblk[s.cbs[m].at] == FileBytes(s0, s0.cbs[m].file)[s0.cbs[m].pos]
  {
    hide FreeLists, Openers, Entries, OnDisk, View, NamesOk;
    GetReady(s0, s, m);
    GetSizes(s, m);
    GetDone(s0, s, m);
  }

  /** Writes add up. */
  lemma StoredMore(s: St, t: St, u: St, m: int, a: seq<byte>, b: seq<byte>)
    requires Stored(s, t, m, a) && Stored(t, u, m, b)
    ensures Stored(s, u, m, a + b)
  {
    hide Bytes, WriteAt, JustHold;
    WriteMore(FileBytes(s, s.cbs[m].file), s.cbs[m].pos, a, b);
  }

  lemma StoredNothing(s: St, m: int)
    requires Good(s) && OpenAt(s, m)
    ensures Stored(s, s, m, []) && Moved(s, s, m, s.cbs[m].pos)
  {
    assert WriteAt(FileBytes(s, s.cbs[m].file), s.cbs[m].pos, []) == FileBytes(s, s.cbs[m].file);
  }

  lemma MovedMore(s: St, t: St, u: St, m: int, p: int, q: int)
    requires Moved(s, t, m, p) && Moved(t, u, m, q)
    ensures Moved(s, u, m, q)
  {
  }

  /** After `data` there is still room for `left` more bytes. */
  lemma RoomLeft(s: St, t: St, m: int, data: seq<byte>, left: nat)
    requires Stored(s, t, m, data) && RoomFor(s, m, |data| + left)
    ensures RoomFor(t, m, left)
  {
    var f := s.cbs[m].file;
    assert |FileBytes(t, f)| == Max(|FileBytes(s, f)|, s.cbs[m].pos + |data|);
  }

  // ---- lflread and lflwrite ----------------------------------------------------------

  lemma PrefixGrows(buff: seq<byte>, i: nat)
    requires i < |buff|
    ensures buff[..i] + [buff[i]] == buff[..i + 1]
  {
  }

  lemma LastByte(buff: seq<byte>)
    requires buff != []
    ensures buff[..|buff| - 1] + [buff[|buff| - 1]] == buff
  {
  }

  /** One call of lflgetc before the end of the file. */
  ghost predicate ReadByte(s: St, t: St, m: int, ch: byte) {
    && Inside(s, m) && Moved(s, t, m, s.cbs[m].pos + 1)
    && ch == FileBytes(s, s.cbs[m].file)[s.cbs[m].pos]
  }

  /** Calls of lflgetc that returned the bytes of `buff` lead from `s` to `t`. */
  ghost predicate ReadRun(s: St, t: St, m: int, buff: seq<byte>)
    decreases |buff|
  {
    if buff == [] then
      0 <= m < NLFL && Good(s) && s.cbs[m].used && t == s
    else
      var n := |buff| - 1;
      exists u :: ReadRun(s, u, m, buff[..n]) && ReadByte(u, t, m, buff[n])
  }

  /** `buff` is the stretch of the file at the position of `m`, which has moved past it. */
  ghost predicate HasRead(s: St, t: St, m: int, buff: seq<byte>) {
    && 0 <= m < |s.cbs| && Moved(s, t, m, s.cbs[m].pos + |buff|)
    && s.cbs[m].pos + |buff| <= |FileBytes(s, s.cbs[m].file)|
    && buff == FileBytes(s, s.cbs[m].file)[s.cbs[m].pos..s.cbs[m].pos + |buff|]
  }

  lemma {:induction false} RunReads(s: St, t: St, m: int, buff: seq<byte>)
    requires ReadRun(s, t, m, buff)
    ensures HasRead(s, t, m, buff)
    decreases |buff|
  {
    if buff == [] {
      StoredNothing(s, m);
    } else {
      var n := |buff| - 1;
      var u :| ReadRun(s, u, m, buff[..n]) && ReadByte(u, t, m, buff[n]);
      RunReads(s, u, m, buff[..n]);
      ReadOne(s, u, t, m, buff[..n], buff[n]);
      LastByte(buff);
    }
  }

  lemma ReadOne(s0: St, s: St, t: St, m: int, buff: seq<byte>, ch: byte)
    requires 0 <= m < NLFL && HasRead(s0, s, m, buff) && ReadByte(s, t, m, ch)
    ensures HasRead(s0, t, m, buff + [ch])
  {
    var f := s0.cbs[m].file;
    assert FileBytes(s, f) == FileBytes(s0, f);
    MovedMore(s0, s, t, m, s.cbs[m].pos, s.cbs[m].pos + 1);
  }

  lemma ReadGrows(s: St, u: St, t: St, m: int, buff: seq<byte>, ch: byte)
    requires ReadRun(s, u, m, buff) && ReadByte(u, t, m, ch)
    ensures ReadRun(s, t, m, buff + [ch])
  {
    assert (buff + [ch])[..|buff|] == buff;
  }

  /** The result of reading up to `count` bytes. */
  ghost predicate ReadDone(s: St, t: St, m: int, count: int, buff: seq<byte>) {
    HasRead(s, t, m, buff) && |buff| == Min(count, |FileBytes(s, s.cbs[m].file)| - s.cbs[m].pos)
  }

  /** The loop ends when enough has been read or the end of the file is reached. */
  lemma RunDone(s: St, t: St, m: int, buff: seq<byte>, count: int)
    requires ReadRun(s, t, m, buff) && |buff| <= count
    requires |buff| == count || !Inside(t, m)
    ensures ReadDone(s, t, m, count, buff)
  {
    hide NamesOk, SizesOk, FreeLists, Entries;
    RunReads(s, t, m, buff);
    var f := s.cbs[m].file;
    assert |FileBytes(t, f)| == |FileBytes(s, f)|;
  }

  /** `m` is open with room for `n` bytes. */
  ghost predicate CanWrite(s: St, m: int, n: nat) {
    Good(s) && OpenAt(s, m) && RoomFor(s, m, n)
  }

  /** Calls of lflputc that stored the first `i` bytes of `buff` lead from `s`, where
      there was room for up to `count` bytes, to `t`. */
  ghost predicate WriteRun(s: St, t: St, m: int, buff: seq<byte>, i: nat, count: nat)
    decreases i
  {
    if i == 0 then
      t == s && forall n: nat :: n <= count ==> CanWrite(s, m, n)
    else
      && i <= |buff|
      && var n, ch := i - 1, buff[i - 1];
         exists u :: WriteRun(s, u, m, buff, n, count) && Stored(u, t, m, [ch])
  }

  lemma RunStarts(s: St, m: int, buff: seq<byte>, count: nat)
    requires CanWrite(s, m, count)
    ensures WriteRun(s, s, m, buff, 0, count)
  {
    forall n: nat | n <= count
      ensures CanWrite(s, m, n)
    {
      assert SizeAfter(s, m, n) <= SizeAfter(s, m, count);
    }
  }

  lemma {:induction false} RunWrites(s: St, t: St, m: int, buff: seq<byte>, i: nat, count: nat)
    requires i <= |buff| && WriteRun(s, t, m, buff, i, count)
    ensures Stored(s, t, m, buff[..i]) && RoomFor(s, m, count)
    decreases i
  {
    if i == 0 {
      assert CanWrite(s, m, count);
      StoredNothing(s, m);
      assert buff[..0] == [];
    } else {
      var n, ch := i - 1, buff[i - 1];
      var u :| WriteRun(s, u, m, buff, n, count) && Stored(u, t, m, [ch]);
      RunWrites(s, u, m, buff, n, count);
      StoredMore(s, u, t, m, buff[..n], [ch]);
      PrefixGrows(buff, n);
    }
  }

  lemma RunRoom(s: St, t: St, m: int, buff: seq<byte>, i: nat, count: nat)
    requires i < count <= |buff| && WriteRun(s, t, m, buff, i, count)
    ensures Good(t) && OpenAt(t, m) && Room(t, m)
  {
    hide StInv, SizesOk, NamesOk, FileBytes;
    RunWrites(s, t, m, buff, i, count);
    RoomLeft(s, t, m, buff[..i], count - i);
    RoomForOne(t, m, count - i - 1);
  }

  // ---- lflseek -----------------------------------------------------------------------

  function SeekStep(s: St, m: int, offset: int): St
    requires 0 <= m < |s.cbs|
  {
    WithCb(s, m, s.cbs[m].(pos := offset, at := LF_BLKSIZ))
  }

  lemma SeekIsMoved(s: St, m: int, offset: int)
    requires Good(s) && OpenAt(s, m) && 0 <= offset <= s.dir.files[s.cbs[m].file].size
    ensures Moved(s, SeekStep(s, m, offset), m, offset)
  {
    var t := SeekStep(s, m, offset);
    assert CbOk(s, m);
    SeekSt(s, m, offset);
    forall g | 0 <= g < s.dir.nfiles
      ensures FileBytes(t, g) == FileBytes(s, g)
    {
      SameBytes(s, t, g);
    }
    NamesKept(s, t);
  }

  lemma SeekSt(s: St, m: int, offset: int)
    requires StInv(s) && SizesOk(s) && OpenAt(s, m) && 0 <= offset <= s.dir.files[s.cbs[m].file].size
    ensures OpenAt(SeekStep(s, m, offset), m) && SizesOk(SeekStep(s, m, offset)) && SameView(s, SeekStep(s, m, offset))
  {
    var t := SeekStep(s, m, offset);
    assert CbOk(s, m);
    OneCb(s, t, m);
  }

  // ---- lftruncate --------------------------------------------------------------------

  /** The free data list after the first `n` data blocks of file `f` have been freed. */
  function FreedList(lay: Layout, f: int, n: nat): seq<int>
    requires 0 <= f < |lay.dl| && FREEL < |lay.dl| && n <= |lay.dl[f]|
  {
    Reverse(lay.dl[f][..n]) + lay.dl[FREEL]
  }

  /** The walk of lftruncate over file `f`: `p` index blocks rewritten, `n` data blocks freed. */
  ghost predicate Walked(s: St, f: int, p: nat, n: nat, ibs: seq<IBlk>, db: seq<Sector>, dfree: int)
    requires Shape(s) && 0 <= f < LF_NUM_DIR_ENT
  {
    && |ibs| == |s.ibs| && |db| == |s.db| && p <= |s.lay.il[f]| && n <= |s.lay.dl[f]|
    && (forall k :: 0 <= k < p ==> ILink(ibs, s.lay.il[f] + s.lay.il[FREEL], k))
    && (forall j :: 0 <= j < |ibs| && j in s.lay.iown && (s.lay.iown[j].list != f || s.lay.iown[j].idx >= p) ==>
          ibs[j] == s.ibs[j])
    && dfree == At(FreedList(s.lay, f, n), 0)
    && (forall k :: 0 <= k < n ==> DLink(db, s.lay.lo, FreedList(s.lay, f, n), k))
    && (forall d :: s.lay.lo <= d < s.lay.hi && d in s.lay.down
                    && (s.lay.down[d].list != f || s.lay.down[d].idx >= n) ==>
          db[d - s.lay.lo] == s.db[d - s.lay.lo])
  }

  lemma WalkStarts(s: St, f: int)
    requires StInv(s) && 0 <= f < LF_NUM_DIR_ENT
    ensures Walked(s, f, 0, 0, s.ibs, s.db, s.dir.dfree)
  {
    assert FreedList(s.lay, f, 0) == s.lay.dl[FREEL];
  }

  lemma FreedGrows(lay: Layout, f: int, n: nat)
    requires 0 <= f < |lay.dl| && FREEL < |lay.dl| && n < |lay.dl[f]|
    ensures FreedList(lay, f, n + 1) == [lay.dl[f][n]] + FreedList(lay, f, n)
  {
    assert lay.dl[f][..n + 1] == lay.dl[f][..n] + [lay.dl[f][n]];
    ReverseGrows(lay.dl[f][..n], lay.dl[f][n]);
  }

  /** Where element `k` of the free data list comes from. */
  lemma FreedPlace(s: St, f: int, n: nat, k: nat)
    requires Shape(s) && 0 <= f < LF_NUM_DIR_ENT && n <= |s.lay.dl[f]| && k < |FreedList(s.lay, f, n)|
    ensures var d := FreedList(s.lay, f, n)[k];
            && s.lay.lo <= d < s.lay.hi && d in s.lay.down
            && s.lay.down[d] == if k < n then Place(f, n - 1 - k) else Place(FREEL, k - n)
  {
    if k < n {
      ReverseAt(s.lay.dl[f][..n], k);
      DbPlace(s, f, n - 1 - k);
    } else {
      DbPlace(s, FREEL, k - n);
    }
  }

  /** lfdbfree of the next data block. */
  lemma WalkFreesDb(s: St, f: int, p: nat, n: nat, ibs: seq<IBlk>, db: seq<Sector>, dfree: int, buf: Sector)
    requires Shape(s) && 0 <= f < LF_NUM_DIR_ENT && Walked(s, f, p, n, ibs, db, dfree) && n < |s.lay.dl[f]|
    requires NextDb(buf) == dfree
    ensures s.lay.lo <= s.lay.dl[f][n] < s.lay.hi
    ensures Walked(s, f, p, n + 1, ibs, db[s.lay.dl[f][n] - s.lay.lo := buf], s.lay.dl[f][n])
  {
    var d := s.lay.dl[f][n];
    DbPlace(s, f, n);
    FreedGrows(s.lay, f, n);
    var db', l, l' := db[d - s.lay.lo := buf], FreedList(s.lay, f, n), FreedList(s.lay, f, n + 1);
    forall k | 0 <= k < n + 1
      ensures DLink(db', s.lay.lo, l', k)
    {
      if k > 0 {
        assert DLink(db, s.lay.lo, l, k - 1);
        FreedPlace(s, f, n, k - 1);
      }
    }
  }

  /** lfibput of the emptied index block. */
  lemma WalkWritesIb(s: St, f: int, p: nat, n: nat, ibs: seq<IBlk>, db: seq<Sector>, dfree: int, b: IBlk)
    requires Shape(s) && 0 <= f < LF_NUM_DIR_ENT && Walked(s, f, p, n, ibs, db, dfree) && p < |s.lay.il[f]|
    requires b.next == At(s.lay.il[f] + s.lay.il[FREEL], p + 1)
    ensures 0 <= s.lay.il[f][p] < |ibs|
    ensures Walked(s, f, p + 1, n, ibs[s.lay.il[f][p] := b], db, dfree)
  {
    IbPlace(s, f, p);
    var l, ibs' := s.lay.il[f] + s.lay.il[FREEL], ibs[s.lay.il[f][p] := b];
    forall k | 0 <= k < p + 1
      ensures ILink(ibs', l, k)
    {
      IbPlace(s, f, k);
      if k < p {
        assert ILink(ibs, l, k);
      }
    }
  }

  lemma WalkEnds(s: St, f: int, ibs: seq<IBlk>, db: seq<Sector>, dfree: int)
    requires Shape(s) && 0 <= f < LF_NUM_DIR_ENT
    requires Walked(s, f, |s.lay.il[f]|, |s.lay.dl[f]|, ibs, db, dfree)
    ensures WalkedDisk(s, f, ibs, db) && dfree == At(Reverse(s.lay.dl[f]) + s.lay.dl[FREEL], 0)
  {
    assert s.lay.dl[f][..|s.lay.dl[f]|] == s.lay.dl[f];
    assert FreedList(s.lay, f, |s.lay.dl[f]|) == Reverse(s.lay.dl[f]) + s.lay.dl[FREEL];
  }

  /** What lftruncate reads in index block `p` before it frees what it finds there. */
  lemma WalkReads(s: St, f: int, p: nat, n: nat, ibs: seq<IBlk>, db: seq<Sector>, dfree: int)
    requires StInv(s) && 0 <= f < LF_NUM_DIR_ENT && Walked(s, f, p, n, ibs, db, dfree) && p < |s.lay.il[f]|
    requires s.lay.opener[f] >= 0 && !s.cbs[s.lay.opener[f]].ibdirty
    ensures 0 <= s.lay.il[f][p] < |ibs| && Says(ibs[s.lay.il[f][p]], s.lay.il[f], s.lay.dl[f], p)
  {
    IbPlace(s, f, p);
    assert BlockOk(s, f, p);
  }

  /** The end of the chain is the head of the free list, and no block before it is. */
  lemma WalkGoesOn(s: St, f: int, p: nat)
    requires StInv(s) && 0 <= f < LF_NUM_DIR_ENT && p <= |s.lay.il[f]|
    ensures At(s.lay.il[f] + s.lay.il[FREEL], p) != s.dir.ifree <==> p < |s.lay.il[f]|
    ensures p + 1 < |s.lay.il[f]| ==> At(s.lay.il[f], p + 1) >= 0
    ensures p + 1 == |s.lay.il[f]| ==> At(s.lay.il[f], p + 1) == LF_INULL
    ensures p < |s.lay.il[f]| ==>
              (At(s.lay.il[f] + s.lay.il[FREEL], p + 1)
               == if At(s.lay.il[f], p + 1) == LF_INULL then s.dir.ifree else At(s.lay.il[f], p + 1))
    ensures Int32(s.dir.ifree)
  {
    if p < |s.lay.il[f]| {
      IbPlace(s, f, p);
    }
    if p + 1 < |s.lay.il[f]| {
      IbPlace(s, f, p + 1);
    }
    if s.lay.il[FREEL] != [] {
      IbPlace(s, FREEL, 0);
    }
  }

  /** lftruncate as a whole: the file is empty, all its blocks are on the free lists, and
      no other file has changed. */
  ghost predicate Truncated(s: St, t: St, m: int) {
    && SameFiles(s, t, m) && t.cbs[m].pos == 0
    && (forall g :: 0 <= g < s.dir.nfiles ==>
          FileBytes(t, g) == if g == s.cbs[m].file then [] else FileBytes(s, g))
    && t.lay == Emptied(s.lay, s.cbs[m].file)
  }

  lemma TruncIsTruncated(s: St, u: St, m: int, ibs: seq<IBlk>, db: seq<Sector>)
    requires Good(s) && OpenAt(s, m) && OpenAt(u, m) && SameView(s, u) && u.dir == s.dir && u.lay == s.lay
    requires u.cbs == s.cbs[m := s.cbs[m].(ibdirty := false, dbdirty := false)]
    requires WalkedDisk(u, u.cbs[m].file, ibs, db)
    ensures Truncated(s, TruncStep(u, m, ibs, db), m)
  {
    assert SizesOk(u);
    NamesKept(s, u);
    TruncInv(u, m, ibs, db);
    forall g | 0 <= g < s.dir.nfiles
      ensures FileBytes(u, g) == FileBytes(s, g)
    {
      SameBytes(s, u, g);
    }
  }

  // ---- lflclose ----------------------------------------------------------------------

  /** Control block `m` is free, its file is on the disk alone, and no file has changed. */
  ghost predicate Closed(s: St, t: St, m: int) {
    && Good(s) && Good(t) && 0 <= m < NLFL && s.cbs[m].used && !t.cbs[m].used
    && t.dir == s.dir && t.lay.opener[s.cbs[m].file] == -1
    && (forall i :: 0 <= i < NLFL && i != m ==> t.cbs[i] == s.cbs[i])
    && (forall g :: 0 <= g < s.dir.nfiles ==> FileBytes(t, g) == FileBytes(s, g))
  }

  lemma CloseIsClosed(s: St, u: St, m: int)
    requires Good(s) && OpenAt(s, m) && OpenAt(u, m) && SameView(s, u) && u.dir == s.dir && u.lay == s.lay
    requires u.cbs == s.cbs[m := s.cbs[m].(ibdirty := false, dbdirty := false)]
    ensures Closed(s, CloseStep(u, m), m)
  {
    var t := CloseStep(u, m);
    assert SizesOk(u);
    NamesKept(s, u);
    CloseStepInv(u, m);
    forall g | 0 <= g < s.dir.nfiles
      ensures FileBytes(t, g) == FileBytes(s, g)
    {
      SameBytes(s, u, g);
      SameBytes(u, t, g);
    }
  }

  // ---- lfsopen -----------------------------------------------------------------------

  /** Up to the first null the C string is the buffer. */
  lemma {:induction false} CStrFrom(buf: seq<byte>, i: nat)
    requires i <= |buf| && 0 !in buf[..i]
    ensures CStr(buf) == buf[..i] + CStr(buf[i..])
  {
    if i > 0 {
      assert buf[0] in buf[..i];
      assert buf[1..][..i - 1] == buf[..i][1..] && buf[1..][i - 1..] == buf[i..];
      CStrFrom(buf[1..], i - 1);
    }
  }

  lemma CStrDiffers(name: seq<byte>, buf: seq<byte>, i: nat)
    requires 0 !in name && i < |name| && i < |buf| && buf[..i] == name[..i] && name[i] != buf[i]
    ensures CStr(buf) != name
  {
    CStrFrom(buf, i);
    assert name[i] in name;
    assert |CStr(buf)| > i ==> CStr(buf)[i] == buf[i];
  }

  lemma StillTerminated(name: seq<byte>, buf: seq<byte>, i: nat)
    requires 0 !in name && Terminated(buf) && i <= |name| && i <= |buf| && buf[..i] == name[..i]
    ensures i < |buf|
  {
    forall j | 0 <= j < i
      ensures buf[j] != 0
    {
      assert buf[j] == buf[..i][j] == name[..i][j] && name[j] in name;
    }
  }

  lemma CStrIs(name: seq<byte>, buf: seq<byte>)
    requires 0 !in name && |name| < |buf| && buf[..|name|] == name
    ensures CStr(buf) == name <==> buf[|name|] == 0
  {
    CStrFrom(buf, |name|);
  }

  lemma CopiedIs(name: seq<byte>, to: seq<byte>)
    requires 0 !in name && |name| < |to| && to[..|name|] == name[..|name|] && to[|name|] == 0
    ensures Terminated(to) && CStr(to) == name
  {
    assert name[..|name|] == name;
    CStrIs(name, to);
  }

  ghost predicate NameOpen(cbs: seq<Cb>, name: seq<byte>) {
    exists m :: 0 <= m < |cbs| && cbs[m].used && CStr(cbs[m].name) == name
  }

  ghost predicate NameKnown(dir: Dir, name: seq<byte>) {
    exists f :: 0 <= f < dir.nfiles && f < |dir.files| && CStr(dir.files[f].name) == name
  }

  /** The directory has one entry more, for an empty file of this name. */
  ghost predicate Created(s: St, t: St, name: seq<byte>) {
    && Good(s) && Good(t) && t.cbs == s.cbs && t.lay == s.lay && t.dir.nfiles == s.dir.nfiles + 1
    && CStr(t.dir.files[s.dir.nfiles].name) == name && FileBytes(t, s.dir.nfiles) == []
    && (forall g :: 0 <= g < s.dir.nfiles ==> t.dir.files[g] == s.dir.files[g] && FileBytes(t, g) == FileBytes(s, g))
  }

  /** Control block `m` is open at position 0 on entry `f`, and nothing else has changed. */
  ghost predicate OpenedAs(s: St, t: St, m: int, f: int, name: seq<byte>) {
    && Good(s) && Good(t) && 0 <= m < NLFL && !s.cbs[m].used && t.cbs[m].used && t.dir == s.dir
    && t.cbs[m].file == f && t.cbs[m].pos == 0 && CStr(t.cbs[m].name) == name
    && (forall i :: 0 <= i < NLFL && i != m ==> t.cbs[i] == s.cbs[i])
    && (forall g :: 0 <= g < s.dir.nfiles ==> FileBytes(t, g) == FileBytes(s, g))
  }

  lemma OpenerHasName(s: St, f: int)
    requires Good(s) && 0 <= f < s.dir.nfiles
    ensures s.lay.opener[f] != -1 ==> NameOpen(s.cbs, CStr(s.dir.files[f].name))
  {
    var m := s.lay.opener[f];
    if m != -1 {
      assert s.cbs[m].used && CStr(s.cbs[m].name) == CStr(s.dir.files[f].name);
    }
  }

  /** A file whose name no open control block has is not open. */
  lemma NotOpen(s: St, f: int, name: seq<byte>)
    requires Good(s) && 0 <= f < s.dir.nfiles && CStr(s.dir.files[f].name) == name && !NameOpen(s.cbs, name)
    ensures s.lay.opener[f] == -1
  {
    OpenerHasName(s, f);
  }

  lemma OpenIsOpened(s: St, m: int, f: int, name: seq<byte>, buf: seq<byte>)
    requires Good(s) && 0 <= m < NLFL && !s.cbs[m].used && 0 <= f < s.dir.nfiles && s.lay.opener[f] == -1
    requires Terminated(buf) && CStr(buf) == name == CStr(s.dir.files[f].name)
    ensures OpenedAs(s, OpenStep(s, m, f, buf), m, f, name)
  {
    var t := OpenStep(s, m, f, buf);
    OpenStepInv(s, m, f, buf);
    forall g | 0 <= g < s.dir.nfiles
      ensures FileBytes(t, g) == FileBytes(s, g)
    {
      SameBytes(s, t, g);
    }
  }

  /** The mode does not go with what the directory has under the name. */
  ghost predicate Refused(dir: Dir, name: seq<byte>, mustExist: bool, mustNotExist: bool) {
    if NameKnown(dir, name) then mustNotExist else mustExist || dir.nfiles >= LF_NUM_DIR_ENT
  }

  /** The result of a successful lfsopen: a known name is opened as it is, an unknown one
      is first created. */
  ghost predicate OpensFile(s: St, t: St, m: int, name: seq<byte>) {
    if NameKnown(s.dir, name) then exists f :: OpenedAs(s, t, m, f, name)
    else exists u, f :: Created(s, u, name) && OpenedAs(u, t, m, f, name)
  }
}
