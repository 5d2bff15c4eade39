/** The end of a rewrite: history files deleted, a new BASE installed, or nothing changed. */
module AofRewrite {
  import opened Options
  import opened Resp
  import opened Manifest
  import opened AofLog
  import opened AofServer
  import opened AofInvariant

  // ---------------------------------------------------------------- deleting history files

  lemma GoneIsRetired(m: AofManifest, stuck: set<FileName>, n: FileName)
    requires WellFormed(m) && n in UnlinkedNames(m.hist, stuck)
    ensures !Listed(m, n) && n != TempIncrName
  {
    UnlinkedNamesMembers(m.hist, stuck, n);
    RetiredIsNotListed(m, n);
  }

  lemma DropNames(s: State, gone: set<FileName>)
    requires Core(s) && TempIncrName !in gone && forall n :: n in gone ==> !Listed(s.am, n)
    ensures Core(s.(dir := s.dir - gone))
  {
    hide Decoded, Complete, Flat, WellFormed, DiskAgrees, Loadable;
    var t := s.(dir := s.dir - gone);
    ListedPresent(s);
    FilesOkFrame(s.am, s.dir, s.data, t.dir, t.data);
    TailOfManifest(s, t);
    if s.mode == On {
      assert Listed(s.am, s.am.incr[|s.am.incr| - 1].name);
    }
  }

  /** A manifest that lists the same files may replace the one in memory. */
  lemma ReplaceManifest(s: State, m: AofManifest, disk: Option<AofManifest>)
    requires Core(s) && WellFormed(m) && SameFiles(m, s.am) && DiskAgrees(disk, m)
    ensures Core(s.(am := m, disk := disk))
  {
    hide Decoded, Complete, Flat, WellFormed, DiskAgrees, Loadable, Live;
    var t := s.(am := m, disk := disk);
    TailOfManifest(s, t);
    SameNamesSameLogs(m.incr, s.am.incr, s.dir, s.data);
    if s.mode == On {
      SameFilesLive(s, m);
      LiveOfParts(s.(am := m), t);
    }
  }

  /** aofDelHistoryFiles never touches a file the manifest lists as BASE or INCR. */
  lemma DelHistoryCore(s: State, stuck: set<FileName>, p: Persist)
    requires Core(s)
    ensures Core(DelHistory(s, stuck, p))
  {
    hide Decoded, Complete, Live, FilesOk, WellFormed, UnlinkedNames, StuckHistory, DiskAgrees, ChildOk;
    var gone := if s.gcDisabled then {} else UnlinkedNames(s.am.hist, stuck);
    if gone == {} {
      assert s.dir - gone == s.dir;
      assert DelHistory(s, stuck, p) == s;
    } else {
      forall n | n in gone ensures !Listed(s.am, n) && n != TempIncrName {
        GoneIsRetired(s.am, stuck, n);
      }
      var s1 := s.(dir := s.dir - gone);
      DropNames(s, gone);
      var m := s.am.(hist := StuckHistory(s.am.hist, stuck), dirty := true);
      DropHistoryWellFormed(s.am, stuck);
      WellFormedDirty(m, Persisted(m, p).dirty);
      DiskAfterDrop(s.disk, s.am, m, p);
      ReplaceManifest(s1, Persisted(m, p), DiskAfter(s.disk, m, p));
    }
  }

  lemma DiskAfterDrop(disk: Option<AofManifest>, am: AofManifest, m: AofManifest, p: Persist)
    requires WellFormed(m) && DiskAgrees(disk, am) && m == am.(hist := m.hist, dirty := true)
    ensures SameFiles(Persisted(m, p), am)
    ensures DiskAgrees(DiskAfter(disk, m, p), Persisted(m, p))
  {
    forall n | Retired(am, n) ensures Retired(Persisted(m, p), n) {}
    if p == NotRenamed {
      DiskAgreesWith(disk, am, Persisted(m, p));
    } else {
      DiskIs(m);
      WellFormedDirty(m, false);
      DiskAgreesWith(Some(m.(dirty := false)), m.(dirty := false), Persisted(m, p));
    }
  }

  // ---------------------------------------------------------------- a rewrite that fails

  /** A failed rewrite leaves the listed files and the buffer of a running AOF as they were. */
  lemma FailCore(s: State, t: State)
    requires Core(s)
    requires t == s.(child := NoChild, data := t.data, dir := t.dir, buf := t.buf)
    requires |s.data| <= |t.data| && t.data[..|s.data|] == s.data
    requires forall n :: n in t.dir ==> n in s.dir && t.dir[n] == s.dir[n]
    requires forall n :: Listed(s.am, n) && n in s.dir ==> n in t.dir
    requires t.buf == if s.mode == On then s.buf else []
    ensures Core(t)
  {
    hide Decoded, Complete, Flat, WellFormed, DiskAgrees, Loadable;
    ListedPresent(s);
    assert forall j :: 0 <= j < |s.data| ==> t.data[j] == t.data[..|s.data|][j];
    FilesOkFrame(s.am, s.dir, s.data, t.dir, t.data);
    if s.mode == On {
      assert Listed(s.am, s.am.incr[|s.am.incr| - 1].name);
      assert t.data[s.fd.value] == s.data[s.fd.value];
    }
  }

  /** What is left of the state when the success path gives up. */
  lemma InstallFails(s: State, d: Done)
    requires Core(s) && s.child.AofChild? && !Install(s, d).1 && d.p != RenamedNotSynced
    ensures var t := Install(s, d).0;
            && t == s.(data := t.data, dir := t.dir)
            && |s.data| <= |t.data| && t.data[..|s.data|] == s.data
            && (forall n :: n in t.dir ==> n in s.dir && t.dir[n] == s.dir[n])
            && (forall n :: Listed(s.am, n) && n in s.dir ==> n in t.dir)
  {
    hide MarkRewritten, WellFormed, FilesOk, Live, ChildOk, DiskAgrees, Indexed;
    NewBaseWellFormed(s.am, d.rdb);
    NewIncrWellFormed(s.am, d.offset);
    TempNotListed(s.am);
  }

  // ---------------------------------------------------------------- a rewrite that succeeds

  /** With AOF on: the snapshot replaces everything before the INCR opened at the fork. */
  function InstalledOn(s: State, rdb: bool): State
    requires s.child.AofChild?
  {
    var m := MarkRewritten(NewBase(s.am, rdb), true).(dirty := false);
    s.(dir := s.dir[BaseName(s.am.baseSeq + 1, rdb) := |s.data|], data := s.data + [Snapshot(s.child.snap)],
       disk := Some(m), am := m, child := NoChild, mode := On)
  }

  lemma InstalledManifest(m: AofManifest, rdb: bool)
    requires WellFormed(m)
    ensures var m1 := MarkRewritten(NewBase(m, rdb), true).(dirty := false);
            && WellFormed(m1) && DiskAgrees(Some(m1), m1)
            && m1.base.Some? && m1.base.value.name == BaseName(m.baseSeq + 1, rdb)
            && (m.incr != [] ==> m1.incr == [m.incr[|m.incr| - 1]])
            && (m.incr == [] ==> m1.incr == [])
  {
    hide WellFormed, DiskAgrees;
    NewBaseWellFormed(m, rdb);
    MarkRewrittenWellFormed(NewBase(m, rdb), true);
    WellFormedDirty(MarkRewritten(NewBase(m, rdb), true), false);
    DiskIs(MarkRewritten(NewBase(m, rdb), true));
  }

  lemma SingleLog(x: AofInfo, dir: map<FileName, Inode>, data: seq<Content>)
    requires x.name in dir && dir[x.name] < |data| && data[dir[x.name]].Log?
    ensures Present([x], dir, data) && Logs([x], dir, data) == [data[dir[x.name]].bytes]
  {
  }

  lemma InstalledOnCore(s: State, rdb: bool)
    requires Core(s) && s.child.AofChild? && s.mode == On
    ensures Core(InstalledOn(s, rdb))
  {
    hide Decoded, Complete, Flat, WellFormed, DiskAgrees, MarkRewritten, NewBase;
    var t := InstalledOn(s, rdb);
    var x := s.am.incr[|s.am.incr| - 1];
    LiveLastIsFd(s);
    InstalledManifest(s.am, rdb);
    NewBaseWellFormed(s.am, rdb);
    assert Listed(s.am, x.name);
    SingleLog(x, t.dir, t.data);
    LastLive(t, x, s.child.snap);
  }

  /** A BASE and a single INCR that is being written. */
  lemma LastLive(t: State, x: AofInfo, snap: seq<Command>)
    requires Indexed(t) && t.am.base.Some? && t.am.incr == [x]
    requires x.name in t.dir && t.fd == Some(t.dir[x.name]) && t.data[t.dir[x.name]].Log?
    requires BasePresent(t.am.base, t.dir, t.data) && BaseCmds(t.am.base, t.dir, t.data) == snap
    requires Complete(Tail(t)) && t.hist == snap + Decoded(Tail(t))
    ensures Live(t)
  {
    hide Decoded, Complete;
    SingleLog(x, t.dir, t.data);
    var logs := Logs(t.am.incr, t.dir, t.data);
    assert logs[..|logs| - 1] == [];
    assert snap + [] + Decoded(Tail(t)) == snap + Decoded(Tail(t));
    LiveFromTail(t);
  }

  /** While AOF was off: the BASE is new, nothing else is listed. */
  function InstalledOff(s: State, rdb: bool): State
    requires s.child.AofChild?
  {
    var m := MarkRewritten(NewBase(s.am, rdb), false).(dirty := false);
    s.(dir := s.dir[BaseName(s.am.baseSeq + 1, rdb) := |s.data|], data := s.data + [Snapshot(s.child.snap)],
       disk := Some(m), am := m, child := NoChild)
  }

  lemma InstalledOffCore(s: State, rdb: bool)
    requires Core(s) && s.child.AofChild? && s.mode == Off
    ensures Core(InstalledOff(s, rdb))
  {
    hide Decoded, Complete, Live, WellFormed, DiskAgrees;
    var m := MarkRewritten(NewBase(s.am, rdb), false);
    var t := InstalledOff(s, rdb);
    NewBaseWellFormed(s.am, rdb);
    MarkRewrittenWellFormed(NewBase(s.am, rdb), false);
    WellFormedDirty(m, false);
    DiskIs(m);
    assert t.am.incr == [];
    assert Logs(t.am.incr, t.dir, t.data) == [];
  }

  /** The first rewrite after AOF was switched on: the temporary INCR gets its real name. */
  function InstalledFirst(s: State, rdb: bool, offset: int): State
    requires s.child.AofChild? && TempIncrName in s.dir
  {
    var m := MarkRewritten(NewIncr(NewBase(s.am, rdb), offset), true).(dirty := false);
    var dir1 := s.dir[BaseName(s.am.baseSeq + 1, rdb) := |s.data|];
    s.(dir := (dir1 - {TempIncrName})[IncrName(s.am.incrSeq + 1) := s.dir[TempIncrName]],
       data := s.data + [Snapshot(s.child.snap)], disk := Some(m), am := m, child := NoChild, mode := On)
  }

  lemma FirstManifest(m: AofManifest, rdb: bool, offset: int)
    requires WellFormed(m)
    ensures var m1 := MarkRewritten(NewIncr(NewBase(m, rdb), offset), true).(dirty := false);
            && WellFormed(m1) && DiskAgrees(Some(m1), m1)
            && m1.base.Some? && m1.base.value.name == BaseName(m.baseSeq + 1, rdb)
            && m1.incr == [Info(IncrName(m.incrSeq + 1), m.incrSeq + 1, IncrFile, offset, -1)]
  {
    hide WellFormed, DiskAgrees;
    var m1 := NewIncr(NewBase(m, rdb), offset);
    NewBaseWellFormed(m, rdb);
    NewIncrWellFormed(NewBase(m, rdb), offset);
    MarkRewrittenWellFormed(m1, true);
    WellFormedDirty(MarkRewritten(m1, true), false);
    DiskIs(MarkRewritten(m1, true));
    assert m1.incr[|m1.incr| - 1..] == [m1.incr[|m1.incr| - 1]];
  }

  lemma InstalledFirstIndexed(s: State, rdb: bool, offset: int)
    requires Indexed(s) && s.child.AofChild? && TempIncrName in s.dir
    ensures Indexed(InstalledFirst(s, rdb, offset))
  {
    hide MarkRewritten, NewIncr, NewBase;
  }

  lemma InstalledFirstCore(s: State, rdb: bool, offset: int)
    requires Core(s) && s.child.AofChild? && s.mode == WaitRewrite && TempIncrName in s.dir
    ensures Core(InstalledFirst(s, rdb, offset))
  {
    hide Decoded, Complete, Flat, WellFormed, DiskAgrees, MarkRewritten, NewBase, NewIncr, Live, Loadable;
    var t := InstalledFirst(s, rdb, offset);
    var x: AofInfo := Info(IncrName(s.am.incrSeq + 1), s.am.incrSeq + 1, IncrFile, offset, -1);
    FirstManifest(s.am, rdb, offset);
    InstalledFirstIndexed(s, rdb, offset);
    assert Tail(t) == Tail(s);
    LastLive(t, x, s.child.snap);
    LiveIsFilesOk(t);
  }

  lemma InstallIsOn(s: State, d: Done)
    requires s.child.AofChild? && Install(s, d).1 && s.mode == On && s.fd.Some?
    ensures Install(s, d).0.(child := NoChild, mode := On) == InstalledOn(s, d.rdb)
  {
    hide MarkRewritten, NewBase, NewIncr;
    NewSeqs(s.am, d.rdb, d.offset);
    MarkedDirty(s.am, d.rdb, d.offset);
  }

  lemma InstallIsOff(s: State, d: Done)
    requires s.child.AofChild? && Install(s, d).1 && s.mode == Off && s.fd.None?
    ensures Install(s, d).0.(child := NoChild, mode := Off) == InstalledOff(s, d.rdb)
  {
    hide MarkRewritten, NewBase, NewIncr;
    NewSeqs(s.am, d.rdb, d.offset);
    MarkedDirty(s.am, d.rdb, d.offset);
  }

  lemma InstallIsFirst(s: State, d: Done)
    requires s.child.AofChild? && Install(s, d).1 && s.mode == WaitRewrite && s.fd.Some? && TempIncrName in s.dir
    ensures Install(s, d).0.(child := NoChild, mode := On) == InstalledFirst(s, d.rdb, d.offset)
  {
    hide MarkRewritten, NewBase, NewIncr;
    NewSeqs(s.am, d.rdb, d.offset);
    MarkedDirty(s.am, d.rdb, d.offset);
  }

  /** The state after an installed rewrite, the child gone. */
  function Finished(s: State, d: Done): State
    requires s.child.AofChild?
  {
    Install(s, d).0.(child := NoChild, mode := if s.mode == Off then Off else On)
  }

  lemma InstallSucceeds(s: State, d: Done)
    requires Core(s) && s.child.AofChild? && Install(s, d).1
    ensures var t := Finished(s, d);
            Core(t) && t.am.base.Some? && (s.mode != Off ==> |t.am.incr| == 1)
  {
    hide Core, WellFormed, MarkRewritten, NewBase, NewIncr, Install, Live, FilesOk, DiskAgrees, Tail;
    CoreParts(s);
    if s.mode == On {
      LiveFd(s);
      InstallIsOn(s, d);
      InstalledOnCore(s, d.rdb);
      InstalledManifest(s.am, d.rdb);
    } else if s.mode == Off {
      InstallIsOff(s, d);
      InstalledOffCore(s, d.rdb);
      MarkedBase(s.am, d.rdb);
    } else {
      InstallIsFirst(s, d);
      InstalledFirstCore(s, d.rdb, d.offset);
      FirstManifest(s.am, d.rdb, d.offset);
    }
  }

  lemma LiveFd(s: State)
    requires Live(s)
    ensures s.fd.Some? && s.am.incr != [] && s.am.base.Some?
  {
  }

  lemma NewSeqs(m: AofManifest, rdb: bool, offset: int)
    ensures NewBase(m, rdb).baseSeq == NewIncr(NewBase(m, rdb), offset).baseSeq == m.baseSeq + 1
    ensures NewBase(m, rdb).incrSeq == m.incrSeq
    ensures NewIncr(NewBase(m, rdb), offset).incrSeq == m.incrSeq + 1
  {
  }

  lemma MarkedDirty(m: AofManifest, rdb: bool, offset: int)
    ensures forall b :: MarkRewritten(NewBase(m, rdb), b).dirty && MarkRewritten(NewIncr(NewBase(m, rdb), offset), b).dirty
  {
  }

  lemma MarkedBase(m: AofManifest, rdb: bool)
    ensures MarkRewritten(NewBase(m, rdb), false).base.Some?
  {
  }
}
