/** Whole runs: whatever calls are made, in whatever order and on whatever open files, the
    file system behaves as a plain table of byte sequences with one position per open
    file.  The disk, the chains, the free lists and the caches cannot be seen in it. */
module LfsRuns {
  import opened Common
  import opened LfsLayout
  import opened LfsState
  import opened LfsSteps
  import opened LfsSetup
  import opened LfsOps

  datatype Cursor = Shut | On(file: int, pos: int)

  datatype Plain = Plain(files: seq<seq<byte>>, names: seq<seq<byte>>, cursors: seq<Cursor>)

  datatype Call =
    | Write(m: int, data: seq<byte>)
    | Read(m: int, count: int, buff: seq<byte>)
    | Seek(m: int, offset: int)
    | Truncate(m: int)
    | Close(m: int)
    | Create(name: seq<byte>)
    | Open(m: int, f: int)

  function CursorOf(c: Cb): Cursor { if c.used then On(c.file, c.pos) else Shut }

  /** What can be observed of the state through the calls. */
  ghost function Observed(s: St): Plain
    requires Good(s)
  {
    Plain(seq(s.dir.nfiles, f requires 0 <= f < s.dir.nfiles => FileBytes(s, f)),
          seq(s.dir.nfiles, f requires 0 <= f < s.dir.nfiles => CStr(s.dir.files[f].name)),
          seq(NLFL, m requires 0 <= m < NLFL => CursorOf(s.cbs[m])))
  }

  /** The file and position of a call are there. */
  predicate Addresses(p: Plain, m: int) {
    && 0 <= m < |p.cursors| && p.cursors[m].On? && 0 <= p.cursors[m].file < |p.files|
    && 0 <= p.cursors[m].pos <= |p.files[p.cursors[m].file]|
  }

  predicate Enabled(p: Plain, c: Call) {
    match c
    case Write(m, _) => Addresses(p, m)
    case Read(m, count, _) => Addresses(p, m) && 0 <= count
    case Seek(m, offset) => Addresses(p, m) && 0 <= offset <= |p.files[p.cursors[m].file]|
    case Truncate(m) => Addresses(p, m)
    case Close(m) => Addresses(p, m)
    case Create(name) => name !in p.names
    case Open(m, f) => 0 <= m < |p.cursors| && p.cursors[m].Shut? && 0 <= f < |p.files|
                       && forall i :: 0 <= i < |p.cursors| && p.cursors[i].On? ==> p.cursors[i].file != f
  }

  /** The plain meaning of each call. */
  function Meaning(p: Plain, c: Call): Plain
    requires Enabled(p, c)
  {
    match c
    case Write(m, data) =>
      var On(f, pos) := p.cursors[m];
      p.(files := p.files[f := WriteAt(p.files[f], pos, data)], cursors := p.cursors[m := On(f, pos + |data|)])
    case Read(m, count, _) =>
      var On(f, pos) := p.cursors[m];
      p.(cursors := p.cursors[m := On(f, Min(pos + count, |p.files[f]|))])
    case Seek(m, offset) =>
      p.(cursors := p.cursors[m := On(p.cursors[m].file, offset)])
    case Truncate(m) =>
      var f := p.cursors[m].file;
      p.(files := p.files[f := []], cursors := p.cursors[m := On(f, 0)])
    case Close(m) =>
      p.(cursors := p.cursors[m := Shut])
    case Create(name) =>
      p.(files := p.files + [[]], names := p.names + [name])
    case Open(m, f) =>
      p.(cursors := p.cursors[m := On(f, 0)])
  }

  /** The bytes a call returns, none for the calls that return none. */
  function Result(p: Plain, c: Call): seq<byte>
    requires Enabled(p, c)
  {
    match c
    case Read(m, count, _) =>
      var On(f, pos) := p.cursors[m];
      p.files[f][pos..Min(pos + count, |p.files[f]|)]
    case _ => []
  }

  /** `t` is a possible state of the real file system after call `c` in state `s`; LfsCalls
      makes such calls in place. */
  ghost predicate Step(s: St, c: Call, t: St) {
    match c
    case Write(m, data) => Stored(s, t, m, data)
    case Read(m, count, buff) => 0 <= m < NLFL && 0 <= count && ReadDone(s, t, m, count, buff)
    case Seek(m, offset) => Moved(s, t, m, offset) && 0 <= offset <= |FileBytes(s, s.cbs[m].file)|
    case Truncate(m) =>
      Truncated(s, t, m) || (Good(s) && t == s && 0 <= m < NLFL && s.cbs[m].used && FileBytes(s, s.cbs[m].file) == [])
    case Close(m) => Closed(s, t, m)
    case Create(name) => Created(s, t, name) && forall f :: 0 <= f < s.dir.nfiles ==> CStr(s.dir.files[f].name) != name
    case Open(m, f) => Good(s) && 0 <= f < s.dir.nfiles && s.lay.opener[f] == -1
                       && OpenedAs(s, t, m, f, CStr(s.dir.files[f].name))
  }

  lemma PosInFile(s: St, m: int)
    requires Good(s) && 0 <= m < NLFL && s.cbs[m].used
    ensures Addresses(Observed(s), m)
  {
    assert CbOk(s, m);
    hide FileBytes;
  }

  lemma StepEnabled(s: St, c: Call, t: St)
    requires Step(s, c, t)
    ensures Good(s) && Good(t) && Enabled(Observed(s), c)
  {
    hide FileBytes, NamesOk, SizesOk, FreeLists, Entries;
    match c
    case Create(name) =>
    case Open(m, f) =>
      var p := Observed(s);
      forall i | 0 <= i < |p.cursors| && p.cursors[i].On?
        ensures p.cursors[i].file != f
      {
        assert s.cbs[i].used;
      }
    case _ => PosInFile(s, c.m);
  }

  lemma StepFiles(s: St, c: Call, t: St)
    requires Step(s, c, t) && Good(s) && Good(t) && Enabled(Observed(s), c)
    ensures Observed(t).files == Meaning(Observed(s), c).files
  {
    hide FileBytes, Owned, FreeLists, Entries, OnDisk, Cached, FreeKept;
    var a, b := Observed(t).files, Meaning(Observed(s), c).files;
    match c
    case _ =>
      assert |a| == |b|;
      assert forall k :: 0 <= k < |b| ==> a[k] == b[k];
  }

  lemma StepNames(s: St, c: Call, t: St)
    requires Step(s, c, t) && Good(s) && Good(t) && Enabled(Observed(s), c)
    ensures Observed(t).names == Meaning(Observed(s), c).names
  {
    hide FileBytes, Owned, FreeLists, Entries, OnDisk, Cached, FreeKept, CStr;
    var a, b := Observed(t).names, Meaning(Observed(s), c).names;
    match c
    case _ =>
      assert |a| == |b|;
      assert forall k :: 0 <= k < |b| ==> a[k] == b[k];
  }

  lemma StepCursors(s: St, c: Call, t: St)
    requires Step(s, c, t) && Good(s) && Good(t) && Enabled(Observed(s), c)
    ensures Observed(t).cursors == Meaning(Observed(s), c).cursors
  {
    hide FileBytes, Owned, FreeLists, Entries, OnDisk, Cached, FreeKept, NamesOk, Openers;
    var a, b := Observed(t).cursors, Meaning(Observed(s), c).cursors;
    match c
    case _ =>
      assert |a| == |b|;
      assert forall k :: 0 <= k < |b| ==> a[k] == b[k];
  }

  /** Every call on the real state has exactly its plain meaning and result. */
  lemma StepRefines(s: St, c: Call, t: St)
    requires Step(s, c, t)
    ensures Good(s) && Good(t) && Enabled(Observed(s), c)
    ensures Observed(t) == Meaning(Observed(s), c)
    ensures c.Read? ==> c.buff == Result(Observed(s), c)
  {
    StepEnabled(s, c, t);
    StepFiles(s, c, t);
    StepNames(s, c, t);
    StepCursors(s, c, t);
    hide FileBytes, StInv, SizesOk, NamesOk, Meaning;
    if c.Read? {
      assert ReadDone(s, t, c.m, c.count, c.buff);
    }
  }

  /** A run of calls through real states. */
  ghost predicate Run(ss: seq<St>, cs: seq<Call>) {
    |ss| == |cs| + 1 && forall i :: 0 <= i < |cs| ==> Step(ss[i], cs[i], ss[i + 1])
  }

  predicate AllEnabled(p: Plain, cs: seq<Call>)
    decreases |cs|
  {
    cs == [] || (Enabled(p, cs[0]) && AllEnabled(Meaning(p, cs[0]), cs[1..]))
  }

  function MeaningOf(p: Plain, cs: seq<Call>): Plain
    requires AllEnabled(p, cs)
    decreases |cs|
  {
    if cs == [] then p else MeaningOf(Meaning(p, cs[0]), cs[1..])
  }

  /** The bytes read in a run, call by call. */
  function Results(p: Plain, cs: seq<Call>): seq<seq<byte>>
    requires AllEnabled(p, cs)
    decreases |cs|
  {
    if cs == [] then [] else [Result(p, cs[0])] + Results(Meaning(p, cs[0]), cs[1..])
  }

  function Returned(cs: seq<Call>): (r: seq<seq<byte>>) {
    if cs == [] then [] else [if cs[0].Read? then cs[0].buff else []] + Returned(cs[1..])
  }

  lemma {:induction false} RunRefines(ss: seq<St>, cs: seq<Call>)
    requires Run(ss, cs) && Good(ss[0])
    ensures Good(ss[|cs|]) && AllEnabled(Observed(ss[0]), cs)
    ensures Observed(ss[|cs|]) == MeaningOf(Observed(ss[0]), cs)
    ensures Returned(cs) == Results(Observed(ss[0]), cs)
    decreases |cs|
  {
    hide Good, Step, Observed, Enabled, Meaning, Result;
    if cs != [] {
      assert Step(ss[0], cs[0], ss[0 + 1]);
      StepRefines(ss[0], cs[0], ss[1]);
      if !cs[0].Read? { ResultOfOther(Observed(ss[0]), cs[0]); }
      var ss', cs' := ss[1..], cs[1..];
      forall i | 0 <= i < |cs'|
        ensures Step(ss'[i], cs'[i], ss'[i + 1])
      {
        var j := i + 1;
        assert Step(ss[j], cs[j], ss[j + 1]);
      }
      RunRefines(ss[1..], cs[1..]);
    }
  }

  lemma ResultOfOther(p: Plain, c: Call)
    requires Enabled(p, c) && !c.Read?
    ensures Result(p, c) == []
  {
  }
}
