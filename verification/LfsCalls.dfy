/** The calls of the file system in place, as steps of a run: whatever a program does through
    them, it sees the plain table of byte sequences of LfsRuns. */
module LfsCalls {
  import opened Common
  import opened LfsLayout
  import opened LfsState
  import opened LfsSteps
  import opened LfsSetup
  import opened LfsOps
  import opened LfsRuns
  import opened Lfs

  /** The calls `cs` lead from `s` to `t`. */
  ghost predicate Leads(s: St, cs: seq<Call>, t: St) {
    exists ss :: Run(ss, cs) && ss[0] == s && ss[|cs|] == t
  }

  lemma LeadsNowhere(s: St)
    ensures Leads(s, [], s)
  {
    assert Run([s], []);
  }

  lemma LeadsOne(s: St, c: Call, t: St)
    requires Step(s, c, t)
    ensures Leads(s, [c], t)
  {
    hide Step;
    var ss := [s, t];
    assert ss[0] == s && ss[1] == t;
    assert Run(ss, [c]);
  }

  /** One program after another. */
  lemma LeadsThen(s: St, cs: seq<Call>, t: St, ds: seq<Call>, u: St)
    requires Leads(s, cs, t) && Leads(t, ds, u)
    ensures Leads(s, cs + ds, u)
  {
    hide Step;
    var ss :| Run(ss, cs) && ss[0] == s && ss[|cs|] == t;
    var ts :| Run(ts, ds) && ts[0] == t && ts[|ds|] == u;
    var us, es := ss + ts[1..], cs + ds;
    forall i | 0 <= i < |es|
      ensures Step(us[i], es[i], us[i + 1])
    {
      if i < |cs| {
        assert Step(ss[i], cs[i], ss[i + 1]);
      } else {
        var j := i - |cs|;
        assert Step(ts[j], ds[j], ts[j + 1]);
      }
    }
    assert Run(us, es) && us[0] == s && us[|es|] == u;
  }

  /** What a program that makes these calls observes is their plain meaning. */
  lemma LeadsRefines(s: St, cs: seq<Call>, t: St)
    requires Good(s) && Leads(s, cs, t)
    ensures Good(t) && AllEnabled(Observed(s), cs) && Observed(t) == MeaningOf(Observed(s), cs)
    ensures Returned(cs) == Results(Observed(s), cs)
  {
    hide Good, Observed, Step;
    var ss :| Run(ss, cs) && ss[0] == s && ss[|cs|] == t;
    RunRefines(ss, cs);
  }

  method Putc(fs: LocalFs, minor: nat, ch: byte) returns (r: int)
    requires fs.Valid() && minor < NLFL && (fs.lfltab[minor].lfstate ==> Room(fs.State(), minor))
    modifies fs`disk, fs`dir, fs`dirdirty, fs`lay, fs.lfltab[minor]
    ensures fs.Valid()
    ensures Leads(old(fs.State()), if old(fs.lfltab[minor].lfstate) then [Write(minor, [ch])] else [], fs.State())
  {
    hide Stored, Room;
    ghost var s := fs.State();
    LeadsNowhere(s);
    r := fs.Lflputc(minor, ch);
    if fs.lfltab[minor].lfstate { LeadsOne(s, Write(minor, [ch]), fs.State()); }
  }

  method Getc(fs: LocalFs, minor: nat) returns (r: int)
    requires fs.Valid() && minor < NLFL
    modifies fs`disk, fs`dir, fs`dirdirty, fs`lay, fs.lfltab[minor]
    ensures fs.Valid() && (r == SYSERR || r == EOF || 0 <= r < 256)
    ensures Leads(old(fs.State()),
                  if r == SYSERR then [] else [Read(minor, 1, if r == EOF then [] else [r])],
                  fs.State())
  {
    hide NamesOk, SizesOk, Openers, FreeLists, Entries, Good;
    ghost var s := fs.State();
    LeadsNowhere(s);
    if fs.lfltab[minor].lfstate { GetIsRead(s, minor); }
    hide Inside, Moved, Good;
    r := fs.Lflgetc(minor);
    if fs.lfltab[minor].lfstate {
      GotOne(s, fs.State(), minor, r);
      LeadsOne(s, Read(minor, 1, if r == EOF then [] else [r]), fs.State());
    }
  }

  lemma GetIsRead(s: St, m: int)
    requires Good(s) && 0 <= m < NLFL && s.cbs[m].used
    ensures !Inside(s, m) ==> ReadDone(s, s, m, 1, [])
  {
  }

  lemma GotOne(s: St, t: St, m: int, r: int)
    requires Good(s) && 0 <= m < NLFL && s.cbs[m].used
    requires Inside(s, m) ==> Moved(s, t, m, s.cbs[m].pos + 1) && 0 <= s.cbs[m].pos < |FileBytes(s, s.cbs[m].file)|
                              && r == FileBytes(s, s.cbs[m].file)[s.cbs[m].pos]
    requires !Inside(s, m) ==> t == s && r == EOF
    ensures r == EOF <==> !Inside(s, m)
    ensures ReadDone(s, t, m, 1, if r == EOF then [] else [r])
  {
    hide NamesOk, FreeLists, Entries;
  }

  method Seek(fs: LocalFs, minor: nat, offset: int) returns (r: int)
    requires fs.Valid() && minor < NLFL && Uint32(offset)
    modifies fs.lfltab[minor]
    ensures fs.Valid()
    ensures Leads(old(fs.State()), if r == OK then [LfsRuns.Seek(minor, offset)] else [], fs.State())
  {
    hide Moved, Good, Leads, FileBytes;
    ghost var s := fs.State();
    LeadsNowhere(s);
    if fs.lfltab[minor].lfstate { SizeIs(s, minor); }
    r := fs.Lflseek(minor, offset);
    if r == OK { Sought(s, minor, offset, fs.State()); }
  }

  lemma Sought(s: St, m: int, offset: int, t: St)
    requires Good(s) && Moved(s, t, m, offset) && 0 <= m < NLFL && s.cbs[m].used
    requires 0 <= s.cbs[m].file < s.dir.nfiles && 0 <= offset <= |FileBytes(s, s.cbs[m].file)|
    ensures Leads(s, [LfsRuns.Seek(m, offset)], t)
  {
    hide FileBytes, StInv;
    LeadsOne(s, LfsRuns.Seek(m, offset), t);
  }

  lemma SizeIs(s: St, m: int)
    requires Good(s) && 0 <= m < NLFL && s.cbs[m].used
    ensures 0 <= s.cbs[m].file < s.dir.nfiles <= |s.dir.files|
    ensures |FileBytes(s, s.cbs[m].file)| == s.dir.files[s.cbs[m].file].size
  {
  }

  method ReadBytes(fs: LocalFs, minor: nat, count: int) returns (r: int, buff: seq<byte>)
    requires fs.Valid() && minor < NLFL && Int32(count)
    modifies fs`disk, fs`dir, fs`dirdirty, fs`lay, fs.lfltab[minor]
    ensures fs.Valid()
    ensures Leads(old(fs.State()),
                  if count >= 0 && old(fs.lfltab[minor].lfstate) then [Read(minor, count, buff)] else [],
                  fs.State())
  {
    hide NamesOk, SizesOk, Openers, FreeLists;
    ghost var s := fs.State();
    LeadsNowhere(s);
    hide ReadDone, Good;
    r, buff := fs.Lflread(minor, count);
    if count >= 0 && fs.lfltab[minor].lfstate { LeadsOne(s, Read(minor, count, buff), fs.State()); }
  }

  method WriteBytes(fs: LocalFs, minor: nat, buff: seq<byte>, count: int) returns (r: int)
    requires fs.Valid() && minor < NLFL && Int32(count) && count <= |buff|
    requires fs.lfltab[minor].lfstate && count >= 0 ==> RoomFor(fs.State(), minor, count)
    modifies fs`disk, fs`dir, fs`dirdirty, fs`lay, fs.lfltab[minor]
    ensures fs.Valid()
    ensures Leads(old(fs.State()),
                  if count >= 0 && old(fs.lfltab[minor].lfstate) then [Write(minor, buff[..count])] else [],
                  fs.State())
  {
    ghost var s := fs.State();
    LeadsNowhere(s);
    hide Stored, RoomFor;
    r := fs.Lflwrite(minor, buff, count);
    if count >= 0 && fs.lfltab[minor].lfstate { LeadsOne(s, Write(minor, buff[..count]), fs.State()); }
  }

  method Empty(fs: LocalFs, minor: nat, rest: seq<byte>) returns (r: int)
    requires fs.Valid() && minor < NLFL && |rest| == 508
    modifies fs`disk, fs`dir, fs`dirdirty, fs`lay, fs.lfltab[minor]
    ensures fs.Valid() && (r == OK <==> old(fs.lfltab[minor].lfstate))
    ensures Leads(old(fs.State()), if r == OK then [Truncate(minor)] else [], fs.State())
  {
    hide Openers, Entries, View, FileBytes, StInv, Good;
    ghost var s := fs.State();
    LeadsNowhere(s);
    if fs.lfltab[minor].lfstate { SizeIs(s, minor); }
    hide Truncated, FileBytes;
    r := fs.Lflcontrol(minor, true, rest);
    if r == OK { LeadsOne(s, Truncate(minor), fs.State()); }
  }

  method CloseFile(fs: LocalFs, minor: nat) returns (r: int)
    requires fs.Valid() && minor < NLFL
    modifies fs`disk, fs`dirdirty, fs`lay, fs.lfltab[minor]
    ensures fs.Valid() && (r == OK <==> old(fs.lfltab[minor].lfstate))
    ensures Leads(old(fs.State()), if r == OK then [Close(minor)] else [], fs.State())
  {
    ghost var s := fs.State();
    LeadsNowhere(s);
    hide Closed, Good;
    r := fs.Lflclose(minor);
    if r == OK { LeadsOne(s, Close(minor), fs.State()); }
  }

  /** An open of a known name is one step; an unknown name is created first. */
  method OpenFile(fs: LocalFs, name: seq<byte>, mode: OpenMode) returns (r: int, ghost f: int)
    requires fs.Valid() && 0 !in name
    modifies fs`dir, fs`dirpresent, fs`lay, fs.lfltab
    ensures fs.Valid()
    ensures r == SYSERR ==> fs.State() == old(fs.State())
    ensures r != SYSERR ==>
              Leads(old(fs.State()),
                    if NameKnown(old(fs.State().dir), name) then [Open(r, f)] else [Create(name), Open(r, f)],
                    fs.State())
  {
    hide Good, OpensFile, NameKnown, NameOpen;
    ghost var s := fs.State();
    r := fs.Lfsopen(name, mode);
    f := 0;
    if r != SYSERR { f := OpenLeads(s, fs.State(), r, name); }
  }

  lemma OpenStep1(s: St, t: St, m: int, f: int, name: seq<byte>)
    requires OpenedAs(s, t, m, f, name) && !NameOpen(s.cbs, name)
    ensures Step(s, Open(m, f), t)
  {
    SizeIs(t, m);
    assert CStr(t.cbs[m].name) == CStr(t.dir.files[f].name);
    NotOpen(s, f, name);
  }

  lemma CreateStep(s: St, u: St, name: seq<byte>)
    requires Created(s, u, name) && !NameKnown(s.dir, name)
    ensures Step(s, Create(name), u)
  {
    forall f | 0 <= f < s.dir.nfiles
      ensures CStr(s.dir.files[f].name) != name
    {
      assert f < |s.dir.files|;
    }
  }

  lemma OpenLeads(s: St, t: St, m: int, name: seq<byte>) returns (f: int)
    requires OpensFile(s, t, m, name) && !NameOpen(s.cbs, name) && Good(s)
    ensures Leads(s, if NameKnown(s.dir, name) then [Open(m, f)] else [Create(name), Open(m, f)], t)
  {
    hide FileBytes, Good;
    if NameKnown(s.dir, name) {
      f :| OpenedAs(s, t, m, f, name);
      OpenStep1(s, t, m, f, name);
      LeadsOne(s, Open(m, f), t);
    } else {
      ghost var u;
      u, f :| Created(s, u, name) && OpenedAs(u, t, m, f, name);
      OpenStep1(u, t, m, f, name);
      CreateStep(s, u, name);
      LeadsOne(s, Create(name), u);
      LeadsOne(u, Open(m, f), t);
      LeadsThen(s, [Create(name)], u, [Open(m, f)], t);
      assert [Create(name)] + [Open(m, f)] == [Create(name), Open(m, f)];
    }
  }
}
