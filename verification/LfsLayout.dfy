/** Layout of the local file system on disk: 512-byte sectors, the directory in
    sector 0, seven 72-byte index blocks in each sector of the index area, and
    the byte order of the integers stored in them. */
module LfsLayout {
  import opened Common

  type byte = x: int | 0 <= x < 256

  const LF_BLKSIZ := 512
  const LF_NAME_LEN := 16
  const LF_NUM_DIR_ENT := 20
  const LF_INULL := -1
  const LF_DNULL := -1
  const LF_IBLEN := 16
  const LF_IDATA := 8192
  const LF_AREA_DIR := 0
  const LF_AREA_IB := 1
  const IBSIZE := 72

  type Sector = s: seq<byte> | |s| == 512 witness seq(512, _ => 0)
  type Disk = seq<Sector>
  type NameBuf = s: seq<byte> | |s| == 16 witness seq(16, _ => 0)

  datatype IBlk = IBlk(next: int, offset: int, dba: seq<int>)
  datatype Entry = Entry(size: int, ilist: int, name: seq<byte>)
  datatype Dir = Dir(dfree: int, ifree: int, nfiles: int, files: seq<Entry>)

  predicate Int32(x: int) { -0x8000_0000 <= x < 0x8000_0000 }
  ghost predicate WfIb(ib: IBlk) {
    Int32(ib.next) && Uint32(ib.offset) && |ib.dba| == 16 && forall i :: 0 <= i < 16 ==> Int32(ib.dba[i])
  }

  ghost predicate WfEntry(e: Entry) {
    Uint32(e.size) && Int32(e.ilist) && |e.name| == LF_NAME_LEN
  }

  ghost predicate WfDir(d: Dir) {
    && Int32(d.dfree) && Int32(d.ifree) && Int32(d.nfiles) && |d.files| == LF_NUM_DIR_ENT
    && forall i :: 0 <= i < LF_NUM_DIR_ENT ==> WfEntry(d.files[i])
  }

  // ---- Little-endian 32-bit words --------------------------------------------------

  function Byte(w: int, i: nat): byte
    requires Uint32(w) && i < 4
  {
    match i
    case 0 => w % 256
    case 1 => w / 256 % 256
    case 2 => w / 0x1_0000 % 256
    case 3 => w / 0x100_0000
  }

  function Word(s: seq<byte>, at: nat): (w: int)
    requires at + 4 <= |s|
    ensures Uint32(w)
  {
    s[at] as int + 256 * (s[at + 1] as int) + 0x1_0000 * (s[at + 2] as int) + 0x100_0000 * (s[at + 3] as int)
  }

  /** The 32-bit pattern of a signed value, and back. */
  function Pattern(x: int): (w: int)
    requires Int32(x)
    ensures Uint32(w)
  {
    if x < 0 then x + TWO32 else x
  }

  function Signed(w: int): (x: int)
    requires Uint32(w)
    ensures Int32(x)
  {
    if w >= 0x8000_0000 then w - TWO32 else w
  }

  lemma WordOfBytes(s: seq<byte>, at: nat, w: int)
    requires at + 4 <= |s| && Uint32(w)
    requires s[at] == Byte(w, 0) && s[at + 1] == Byte(w, 1) && s[at + 2] == Byte(w, 2) && s[at + 3] == Byte(w, 3)
    ensures Word(s, at) == w
  {
    assert w / 0x1_0000 == w / 256 / 256;
    assert w / 0x100_0000 == w / 0x1_0000 / 256;
  }

  // ---- Index blocks inside a sector ------------------------------------------------

  function Ib2Sect(ib: nat): nat { ib / 7 + LF_AREA_IB }

  function Ib2Disp(ib: nat): (d: nat)
    ensures d + IBSIZE <= LF_BLKSIZ
  {
    ib % 7 * IBSIZE
  }

  function IbWord(ib: IBlk, k: nat): (w: int)
    requires WfIb(ib) && k < 18
    ensures Uint32(w)
  {
    if k == 0 then Pattern(ib.next) else if k == 1 then ib.offset else Pattern(ib.dba[k - 2])
  }

  /** The 72 bytes of an index block as they lie in memory and on disk. */
  function EncIb(ib: IBlk): (bs: seq<byte>)
    requires WfIb(ib)
    ensures |bs| == IBSIZE
  {
    seq(IBSIZE, i requires 0 <= i < IBSIZE => Byte(IbWord(ib, i / 4), i % 4))
  }

  function DecIb(s: seq<byte>, at: nat): (ib: IBlk)
    requires at + IBSIZE <= |s|
    ensures WfIb(ib)
  {
    IBlk(Signed(Word(s, at)), Word(s, at + 4),
         seq(16, k requires 0 <= k < 16 => Signed(Word(s, at + 8 + 4 * k))))
  }

  predicate HasSectorOf(disk: Disk, ib: int) { 0 <= ib && Ib2Sect(ib) < |disk| }

  /** Index block number `ib` as it stands on the disk. */
  function GetIb(disk: Disk, ib: int): (b: IBlk)
    requires HasSectorOf(disk, ib)
    ensures WfIb(b)
  {
    DecIb(disk[Ib2Sect(ib)], Ib2Disp(ib))
  }

  function Splice(s: Sector, at: nat, bs: seq<byte>): Sector
    requires at + |bs| <= 512
  {
    s[..at] + bs + s[at + |bs|..]
  }

  function PutIb(disk: Disk, ib: int, b: IBlk): (d: Disk)
    requires HasSectorOf(disk, ib) && WfIb(b)
    ensures |d| == |disk|
  {
    disk[Ib2Sect(ib) := Splice(disk[Ib2Sect(ib)], Ib2Disp(ib), EncIb(b))]
  }

  /** Bytes `at` to `at + 72` of `s` hold index block `b`. */
  ghost predicate HoldsIb(s: seq<byte>, at: nat, b: IBlk)
    requires WfIb(b) && at + IBSIZE <= |s|
  {
    forall k, i :: 0 <= k < 18 && 0 <= i < 4 ==> s[at + 4 * k + i] == Byte(IbWord(b, k), i)
  }

  lemma EncHoldsIb(s: seq<byte>, at: nat, b: IBlk)
    requires WfIb(b) && at + IBSIZE <= |s| && s[at..at + IBSIZE] == EncIb(b)
    ensures HoldsIb(s, at, b)
  {
    forall k, i | 0 <= k < 18 && 0 <= i < 4
      ensures s[at + 4 * k + i] == Byte(IbWord(b, k), i)
    {
      assert s[at + 4 * k + i] == s[at..at + IBSIZE][4 * k + i];
      assert (4 * k + i) / 4 == k && (4 * k + i) % 4 == i;
    }
  }

  lemma HeldWord(s: seq<byte>, at: nat, b: IBlk, k: nat)
    requires WfIb(b) && at + IBSIZE <= |s| && HoldsIb(s, at, b) && k < 18
    ensures Word(s, at + 4 * k) == IbWord(b, k)
  {
    assert forall i :: 0 <= i < 4 ==> s[at + 4 * k + i] == Byte(IbWord(b, k), i);
    assert s[at + 4 * k + 0] == Byte(IbWord(b, k), 0);
    WordOfBytes(s, at + 4 * k, IbWord(b, k));
  }

  lemma DecHeldIb(s: seq<byte>, at: nat, b: IBlk)
    requires WfIb(b) && at + IBSIZE <= |s| && HoldsIb(s, at, b)
    ensures DecIb(s, at) == b
  {
    HeldWord(s, at, b, 0);
    HeldWord(s, at, b, 1);
    forall k | 0 <= k < 16
      ensures DecIb(s, at).dba[k] == b.dba[k]
    {
      HeldWord(s, at, b, k + 2);
      assert at + 4 * (k + 2) == at + 8 + 4 * k;
    }
    assert DecIb(s, at).dba == b.dba;
  }

  lemma DecIbSame(s: seq<byte>, t: seq<byte>, at: nat)
    requires at + IBSIZE <= |s| && |s| == |t|
    requires forall i :: at <= i < at + IBSIZE ==> s[i] == t[i]
    ensures DecIb(s, at) == DecIb(t, at)
  {
    forall k | 0 <= k < 16
      ensures DecIb(s, at).dba[k] == DecIb(t, at).dba[k]
    {
    }
    assert DecIb(s, at).dba == DecIb(t, at).dba;
  }

  /** lfibput then lfibget gives the block back. */
  lemma PutGetIb(disk: Disk, ib: int, b: IBlk)
    requires HasSectorOf(disk, ib) && WfIb(b)
    ensures GetIb(PutIb(disk, ib, b), ib) == b
  {
    var s := PutIb(disk, ib, b)[Ib2Sect(ib)];
    assert s[Ib2Disp(ib)..Ib2Disp(ib) + IBSIZE] == EncIb(b);
    EncHoldsIb(s, Ib2Disp(ib), b);
    DecHeldIb(s, Ib2Disp(ib), b);
  }

  /** lfibput leaves the six neighbours in the sector, and every other index block, alone. */
  lemma PutIbOther(disk: Disk, ib: int, b: IBlk, j: int)
    requires HasSectorOf(disk, ib) && WfIb(b) && HasSectorOf(disk, j) && ib != j
    ensures GetIb(PutIb(disk, ib, b), j) == GetIb(disk, j)
  {
    if Ib2Sect(j) == Ib2Sect(ib) {
      var s, t := PutIb(disk, ib, b)[Ib2Sect(j)], disk[Ib2Sect(j)];
      var at := Ib2Disp(j);
      assert ib % 7 != j % 7;
      assert at + IBSIZE <= Ib2Disp(ib) || Ib2Disp(ib) + IBSIZE <= at;
      DecIbSame(s, t, at);
    }
  }

  // ---- Data blocks on the free list ------------------------------------------------

  /** The link of a free data block: its first word. */
  function NextDb(s: Sector): (x: int)
    ensures Int32(x)
  {
    Signed(Word(s, 0))
  }

  function EncDb(next: int, rest: seq<byte>): Sector
    requires Int32(next) && |rest| == 508
  {
    var w := Pattern(next);
    [Byte(w, 0), Byte(w, 1), Byte(w, 2), Byte(w, 3)] + rest
  }

  lemma DecEncDb(next: int, rest: seq<byte>)
    requires Int32(next) && |rest| == 508
    ensures NextDb(EncDb(next, rest)) == next
  {
    WordOfBytes(EncDb(next, rest), 0, Pattern(next));
  }

  // ---- The directory in sector 0 ---------------------------------------------------

  /** Byte `i` of the 24 bytes of a directory entry. */
  function EntryByte(e: Entry, i: nat): byte
    requires WfEntry(e) && i < 24
  {
    if i < 4 then Byte(e.size, i) else if i < 8 then Byte(Pattern(e.ilist), i - 4) else e.name[i - 8]
  }

  function DirByte(d: Dir, i: nat): byte
    requires WfDir(d) && i < 512
  {
    if i < 4 then Byte(Pattern(d.dfree), i)
    else if i < 8 then Byte(Pattern(d.ifree), i - 4)
    else if i < 12 then Byte(Pattern(d.nfiles), i - 8)
    else if i < 492 then EntryByte(d.files[(i - 12) / 24], (i - 12) % 24)
    else 0
  }

  function EncDir(d: Dir): Sector
    requires WfDir(d)
  {
    seq(512, i requires 0 <= i < 512 => DirByte(d, i))
  }

  function DecEntry(s: Sector, k: nat): (e: Entry)
    requires k < LF_NUM_DIR_ENT
    ensures WfEntry(e)
  {
    var at := 12 + 24 * k;
    Entry(Word(s, at), Signed(Word(s, at + 4)), s[at + 8..at + 24])
  }

  function DecDir(s: Sector): (d: Dir)
    ensures WfDir(d)
  {
    Dir(Signed(Word(s, 0)), Signed(Word(s, 4)), Signed(Word(s, 8)),
        seq(LF_NUM_DIR_ENT, k requires 0 <= k < LF_NUM_DIR_ENT => DecEntry(s, k)))
  }

  lemma EntryBytes(d: Dir, k: nat, i: nat)
    requires WfDir(d) && k < LF_NUM_DIR_ENT && i < 24
    ensures EncDir(d)[12 + 24 * k + i] == EntryByte(d.files[k], i)
  {
    assert (24 * k + i) / 24 == k && (24 * k + i) % 24 == i;
  }

  lemma DecEncEntry(d: Dir, k: nat)
    requires WfDir(d) && k < LF_NUM_DIR_ENT
    ensures DecEntry(EncDir(d), k) == d.files[k]
  {
    var s, at, e := EncDir(d), 12 + 24 * k, d.files[k];
    forall i | 0 <= i < 24
      ensures s[at + i] == EntryByte(e, i)
    {
      EntryBytes(d, k, i);
    }
    DecHeldEntry(s, k, e);
  }

  lemma DecHeldEntry(s: Sector, k: nat, e: Entry)
    requires WfEntry(e) && k < LF_NUM_DIR_ENT
    requires forall i :: 0 <= i < 24 ==> s[12 + 24 * k + i] == EntryByte(e, i)
    ensures DecEntry(s, k) == e
  {
    var at := 12 + 24 * k;
    assert forall i :: 0 <= i < 4 ==>
        EntryByte(e, i) == Byte(e.size, i) && EntryByte(e, 4 + i) == Byte(Pattern(e.ilist), i);
    assert EntryByte(e, 0) == s[at] && EntryByte(e, 1) == s[at + 1];
    assert EntryByte(e, 2) == s[at + 2] && EntryByte(e, 3) == s[at + 3];
    assert EntryByte(e, 4) == s[at + 4] && EntryByte(e, 5) == s[at + 5];
    assert EntryByte(e, 6) == s[at + 6] && EntryByte(e, 7) == s[at + 7];
    WordOfBytes(s, at, e.size);
    WordOfBytes(s, at + 4, Pattern(e.ilist));
    forall i | 0 <= i < 16
      ensures s[at + 8..at + 24][i] == e.name[i]
    {
      assert s[12 + 24 * k + (8 + i)] == EntryByte(e, 8 + i);
    }
    assert s[at + 8..at + 24] == e.name;
  }

  /** What was written to sector 0 is what a later first open reads back. */
  lemma DecEncDir(d: Dir)
    requires WfDir(d)
    ensures DecDir(EncDir(d)) == d
  {
    var s := EncDir(d);
    WordOfBytes(s, 0, Pattern(d.dfree));
    WordOfBytes(s, 4, Pattern(d.ifree));
    WordOfBytes(s, 8, Pattern(d.nfiles));
    forall k | 0 <= k < LF_NUM_DIR_ENT
      ensures DecDir(s).files[k] == d.files[k]
    {
      DecEncEntry(d, k);
    }
    assert DecDir(s).files == d.files;
  }
}
