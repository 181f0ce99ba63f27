/** The disk seen as an array of index blocks and an array of data sectors, and what a
    sector write or a read-modify-write of one index block does to that picture. */
module LfsDisk {
  import opened LfsLayout

  function Ibs(disk: Disk, lo: int): (r: seq<IBlk>)
    requires 1 <= lo <= |disk|
    ensures |r| == 7 * (lo - 1)
  {
    seq(7 * (lo - 1), j requires 0 <= j < 7 * (lo - 1) => IbIn(disk, lo, j))
  }

  function IbIn(disk: Disk, lo: int, j: int): IBlk
    requires 1 <= lo <= |disk| && 0 <= j < 7 * (lo - 1)
  {
    InArea(j, lo);
    GetIb(disk, j)
  }

  lemma InArea(j: int, lo: int)
    requires 0 <= j < 7 * (lo - 1)
    ensures 1 <= Ib2Sect(j) < lo
  {
  }

  /** A write to the directory sector or to a data sector touches no index block. */
  lemma SectorWrite(disk: Disk, x: int, sec: Sector, lo: int, hi: int)
    requires 1 <= lo <= hi <= |disk| && (x == 0 || lo <= x < hi)
    ensures Ibs(disk[x := sec], lo) == Ibs(disk, lo)
    ensures disk[x := sec][lo..hi] == if x == 0 then disk[lo..hi] else disk[lo..hi][x - lo := sec]
  {
    forall j | 0 <= j < 7 * (lo - 1)
      ensures Ibs(disk[x := sec], lo)[j] == Ibs(disk, lo)[j]
    {
      InArea(j, lo);
    }
  }

  /** lfibput replaces one element of the index block array and nothing else. */
  lemma IbWrite(disk: Disk, ib: int, b: IBlk, lo: int, hi: int)
    requires 1 <= lo <= hi <= |disk| && 0 <= ib < 7 * (lo - 1) && WfIb(b)
    ensures HasSectorOf(disk, ib)
    ensures Ibs(PutIb(disk, ib, b), lo) == Ibs(disk, lo)[ib := b]
    ensures PutIb(disk, ib, b)[lo..hi] == disk[lo..hi]
    ensures PutIb(disk, ib, b)[0] == disk[0]
  {
    InArea(ib, lo);
    forall j | 0 <= j < 7 * (lo - 1)
      ensures Ibs(PutIb(disk, ib, b), lo)[j] == Ibs(disk, lo)[ib := b][j]
    {
      InArea(j, lo);
      if j == ib {
        PutGetIb(disk, ib, b);
      } else {
        PutIbOther(disk, ib, b, j);
      }
    }
  }
}
