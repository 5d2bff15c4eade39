/** Safety of the append-only file over whole runs, crashes and restarts included. */
module AofSafety {
  import opened Options
  import opened Manifest
  import opened AofLog
  import opened AofServer
  import opened AofInvariant
  import opened AofRewrite
  import opened AofBackup

  // ---------------------------------------------------------------- restarting

  /** A write torn by the crash leaves every listed file loadable. */
  lemma TornFiles(s: State, k: nat)
    requires Core(s)
    ensures FilesOk(s.am, s.dir, Torn(s, k))
    ensures |Torn(s, k)| == |s.data|
  {
    hide Decoded, Complete, WellFormed, DiskAgrees, Live, FilesOk, Append, Torn, Positioned;
    if k > |s.buf| || s.fd.None? {
      TornNothing(s, k);
    } else {
      TornIs(s, k);
      AppendFacts(s.data, s.fd.value, s.buf[..k]);
      if s.mode == On {
        FlushLive(s, k);
        LiveIsFilesOk(s.(data := Append(s.data, s.fd.value, s.buf[..k]), buf := s.buf[k..]));
      } else if s.child.AofChild? {
        TempUnlisted(s);
        AppendUnlisted(s, s.fd.value, s.buf[..k]);
      } else {
        assert s.buf[..k] == [];
        AppendNothing(s.data, s.fd.value);
      }
    }
  }

  lemma TornNothing(s: State, k: nat)
    requires k > |s.buf| || s.fd.None?
    ensures Torn(s, k) == s.data
  {
  }

  /** No INCR is left in history without an INCR in use that keeps the counter above it. */
  ghost predicate CounterKept(s: State) {
    var p := DiskManifest(s);
    p.incr != [] || forall i :: 0 <= i < |p.hist| ==> !p.hist[i].name.IncrName?
  }

  lemma ReloadedDisk(s: State)
    requires WellFormed(s.am) && DiskAgrees(s.disk, s.am) && CounterKept(s)
    ensures var m := Reloaded(DiskManifest(s));
            WellFormed(m) && SameFiles(m, s.am) && DiskAgrees(s.disk, m)
  {
    var p := DiskManifest(s);
    var m := Reloaded(p);
    assert forall i :: 0 <= i < |m.incr| ==> m.incr[i].num == s.am.incr[i].num && m.incr[i].name == s.am.incr[i].name;
    forall i | 0 <= i < |p.hist| ensures Retired(m, p.hist[i].name) {
      assert Retired(s.am, p.hist[i].name);
    }
  }

  lemma SameFilesOk(p: AofManifest, m: AofManifest, dir: map<FileName, Inode>, data: seq<Content>)
    requires SameFiles(p, m) && FilesOk(m, dir, data)
    ensures FilesOk(p, dir, data)
    ensures Logs(p.incr, dir, data) == Logs(m.incr, dir, data)
  {
    hide Loadable;
    SameNamesSameLogs(p.incr, m.incr, dir, data);
  }

  lemma RebootedCore(s: State, r: Restarting)
    requires Core(s) && CounterKept(s)
    ensures Core(Rebooted(s, r))
  {
    hide Decoded, Complete, WellFormed, DiskAgrees, Live, FilesOk, SameFiles, Torn, CounterKept, Reloaded;
    ReloadedDisk(s);
    TornFiles(s, r.torn);
    SameFilesOk(Reloaded(DiskManifest(s)), s.am, s.dir, Torn(s, r.torn));
  }

  lemma LoadOfFilesOk(m: AofManifest, dir: map<FileName, Inode>, data: seq<Content>)
    requires FilesOk(m, dir, data)
    ensures LoadAll(m, dir, data) == Some(BaseCmds(m.base, dir, data) + Flat(Logs(m.incr, dir, data)))
  {
    hide Loadable;
    LoadLogsOfLoadable(Logs(m.incr, dir, data));
  }

  /** The descriptor of the recovered last INCR. */
  ghost function Reopened(s: State): Cursor
    requires Present(s.am.incr, s.dir, s.data)
  {
    if s.am.incr == [] then NO_CURSOR else
    Cursor(true, 0, |RecoverLast(s.am, s.dir, s.data)[s.dir[s.am.incr[|s.am.incr| - 1].name]].bytes|)
  }

  /** The state with the last INCR recovered and reopened. */
  ghost function Reopening(s: State): State
    requires Present(s.am.incr, s.dir, s.data) && BasePresent(s.am.base, s.dir, s.data) && s.am.incr != []
  {
    s.(data := RecoverLast(s.am, s.dir, s.data), mode := On, fd := Some(s.dir[s.am.incr[|s.am.incr| - 1].name]),
       cur := Reopened(s), child := NoChild,
       hist := BaseCmds(s.am.base, s.dir, s.data) + Flat(Logs(s.am.incr, s.dir, s.data)))
  }

  /** Only the last log changes. */
  lemma RecoveredLogs(s: State)
    requires Coherent(s) && s.am.incr != []
    ensures var k := |s.am.incr| - 1;
            var t, logs := Reopening(s), Logs(s.am.incr, s.dir, s.data);
            && Present(t.am.incr, t.dir, t.data) && BasePresent(t.am.base, t.dir, t.data)
            && Logs(t.am.incr, t.dir, t.data) == logs[..k] + [Recover(logs[k]).file]
            && BaseCmds(t.am.base, t.dir, t.data) == BaseCmds(s.am.base, s.dir, s.data)
            && Indexed(t) && Positioned(t)
  {
    hide Decoded, Complete, Flat, DiskAgrees, Recover, Loadable, Live, ChildOk;
    var k := |s.am.incr| - 1;
    IncrNamesDistinct(s.am);
    var t := Reopening(s);
    forall j | 0 <= j < k ensures t.data[t.dir[s.am.incr[j].name]] == s.data[s.dir[s.am.incr[j].name]] {
      assert s.am.incr[j].name != s.am.incr[k].name;
    }
  }

  /** Reopening the last INCR after recovery. */
  lemma ReopenLive(s: State)
    requires Coherent(s) && s.mode == Off && s.am.incr != []
    ensures Indexed(Reopening(s)) && Live(Reopening(s)) && Positioned(Reopening(s))
  {
    hide Decoded, Complete, Flat, WellFormed, DiskAgrees, Cut, Run, Recover, Live, RecoverLast, Positioned, Reopened, Indexed;
    RecoveredLogs(s);
    var t, k := Reopening(s), |s.am.incr| - 1;
    var logs := Logs(s.am.incr, s.dir, s.data);
    var b := logs[k];
    CutRecovers(b);
    var logs' := Logs(t.am.incr, t.dir, t.data);
    assert logs'[..k] == logs[..k];
    assert Tail(t) == Recover(b).file by { assert Recover(b).file + [] == Recover(b).file; }
    assert logs == logs[..k] + [b];
    FlatSnoc(logs[..k], b);
    var c := BaseCmds(s.am.base, s.dir, s.data);
    assert c + (Flat(logs[..k]) + Decoded(b)) == c + Flat(logs[..k]) + Decoded(b);
    LiveFromTail(t);
  }

  lemma ReopenCore(s: State)
    requires Core(s) && s.mode == Off && s.am.incr != []
    ensures Core(Reopening(s))
  {
    ReopenLive(s);
    hide Decoded, Complete, Flat, WellFormed, DiskAgrees, Loadable, Live, RecoverLast, Reopened, Indexed, Positioned;
    LiveIsFilesOk(Reopening(s));
  }

  lemma OpenOnStartReopens(s: State, rdb: bool, offset: int)
    requires s.am.incr != [] && !s.am.dirty && Indexed(s) && s.am.incr[|s.am.incr| - 1].name in s.dir
    requires s.data[s.dir[s.am.incr[|s.am.incr| - 1].name]].Log?
    ensures var i := s.dir[s.am.incr[|s.am.incr| - 1].name];
            OpenOnStart(s, rdb, offset) == s.(fd := Some(i), cur := Cursor(true, 0, |s.data[i].bytes|))
  {
  }

  /** A BASE, a first INCR just created, and nothing else. */
  lemma FirstIncrCore(s: State, offset: int)
    requires Indexed(s) && WellFormed(s.am) && FilesOk(s.am, s.dir, s.data) && !s.aborted
    requires s.mode == On && s.child == NoChild && s.am.incr == [] && s.am.base.Some?
    requires s.buf == [] && s.fd.None? && IncrName(s.am.incrSeq + 1) !in s.dir
    requires s.hist == BaseCmds(s.am.base, s.dir, s.data)
    ensures var m := NewIncr(s.am, offset);
            var t0 := Open(s, IncrName(m.incrSeq), false);
            && IncrName(m.incrSeq) in t0.dir
            && Core(t0.(am := m.(dirty := false), disk := Some(m.(dirty := false)), fd := Some(t0.dir[IncrName(m.incrSeq)]),
                        cur := Cursor(true, 0, 0)))
  {
    hide Decoded, Complete, Flat, WellFormed, DiskAgrees, Loadable, Live, Open;
    var m := NewIncr(s.am, offset);
    var x := m.incr[0];
    NewIncrWellFormed(s.am, offset);
    WellFormedDirty(m, false);
    DiskIs(m);
    OpenFields(s, x.name, false);
    OpenShape(s, x.name, false);
    OpenFrame(s, x.name, false);
    var t0 := Open(s, x.name, false);
    var t := t0.(am := m.(dirty := false), disk := Some(m.(dirty := false)), fd := Some(t0.dir[x.name]), cur := Cursor(true, 0, 0));
    EmptyLog();
    assert Tail(t) == [];
    assert s.hist + [] == s.hist;
    LastLive(t, x, s.hist);
    LiveIsFilesOk(t);
    assert Positioned(t);
    hide *;
    CoreOf(t);
  }

  lemma CoreOf(s: State)
    requires Indexed(s) && WellFormed(s.am) && DiskAgrees(s.disk, s.am) && FilesOk(s.am, s.dir, s.data)
    requires (s.mode == On ==> Live(s)) && !s.child.AofChild? && Quiet(s) && Positioned(s) && !s.aborted
    ensures Core(s)
  {
  }

  /** Forcing a BASE for an empty dataset. */
  lemma ForceBaseParts(s: State, rdb: bool)
    requires Indexed(s) && WellFormed(s.am) && s.am.incr == [] && s.am.base.None?
    ensures var t := ForceBase(s, rdb);
            && Indexed(t) && WellFormed(t.am) && FilesOk(t.am, t.dir, t.data)
            && t.am.base.Some? && t.am.incr == [] && t.am.incrSeq == s.am.incrSeq
            && BaseCmds(t.am.base, t.dir, t.data) == s.hist
            && (forall n :: n in t.dir && n.IncrName? ==> n in s.dir)
            && t == s.(am := t.am, dir := t.dir, data := t.data)
  {
    hide Decoded, Complete, WellFormed;
    var t := ForceBase(s, rdb);
    NewBaseWellFormed(s.am, rdb);
    assert Logs(t.am.incr, t.dir, t.data) == [];
  }

  /** The server starts on a manifest without INCR files. */
  lemma StartWithoutIncr(s: State, rdb: bool, offset: int)
    requires Indexed(s) && WellFormed(s.am) && FilesOk(s.am, s.dir, s.data) && !s.aborted
    requires s.mode == On && s.child == NoChild && s.am.incr == [] && s.buf == [] && s.fd.None?
    requires IncrName(s.am.incrSeq + 1) !in s.dir
    requires s.hist == BaseCmds(s.am.base, s.dir, s.data)
    ensures Core(OpenOnStart(s, rdb, offset))
  {
    hide Decoded, Complete, WellFormed, FilesOk, Indexed, Open, ForceBase;
    var f := ForceBase(s, rdb);
    if s.am.base.None? {
      ForceBaseParts(s, rdb);
    } else {
      ForceBaseSkips(s, rdb);
    }
    FirstIncrCore(f, offset);
    OpenFields(f, IncrName(f.am.incrSeq + 1), false);
  }

  lemma ForceBaseSkips(s: State, rdb: bool)
    requires s.am.base.Some?
    ensures ForceBase(s, rdb) == s
  {
  }

  /** What a restart with AOF on needs: its next INCR name is not taken. */
  ghost predicate NameFree(s: State) {
    DiskManifest(s).incr != [] || IncrName(1) !in s.dir
  }

  lemma RestartOn(s: State, r: Restarting)
    requires Core(s) && CounterKept(s) && NameFree(s) && r.enabled
    ensures Core(Restart(s, r)) && Restart(s, r).mode == On
  {
    hide Decoded, Complete, WellFormed, DiskAgrees, Live, FilesOk, Indexed, RecoverLast, Rebooted, OpenOnStart,
         CounterKept, DelHistory, Core, Loadable, LoadLogs;
    RebootedCore(s, r);
    RebootedFields(s, r);
    var s0 := Rebooted(s, r);
    CoreParts(s0);
    LoadOfFilesOk(s0.am, s0.dir, s0.data);
    FilesOkParts(s0.am, s0.dir, s0.data);
    var h := BaseCmds(s0.am.base, s0.dir, s0.data) + Flat(Logs(s0.am.incr, s0.dir, s0.data));
    var s1 := s0.(data := RecoverLast(s0.am, s0.dir, s0.data), hist := h, mode := On);
    if s0.am.incr != [] {
      ReopenCore(s0);
      RecoverIndexed(s0);
      RecoverLog(s0);
      IndexedSame(s0.(data := s1.data), s1);
      OpenOnStartReopens(s1, r.rdb, r.offset);
    } else {
      RecoverNothing(s0);
      assert Flat([]) == [] && Logs(s0.am.incr, s0.dir, s0.data) == [];
      IndexedSame(s0, s1);
      StartWithoutIncr(s1, r.rdb, r.offset);
      OpenOnStartMode(s1, r.rdb, r.offset);
    }
    var t := OpenOnStart(s1, r.rdb, r.offset);
    DelHistoryCore(t, r.stuck, r.p);
    DelHistoryMode(t, r.stuck, r.p);
  }

  lemma OpenOnStartMode(s: State, rdb: bool, offset: int)
    ensures var t := OpenOnStart(s, rdb, offset);
            t == s.(am := t.am, disk := t.disk, fd := t.fd, cur := t.cur, data := t.data, dir := t.dir)
  {
  }

  lemma DelHistoryMode(s: State, stuck: set<FileName>, p: Persist)
    ensures var t := DelHistory(s, stuck, p); t == s.(dir := t.dir, disk := t.disk, am := t.am)
  {
  }

  lemma RebootedFields(s: State, r: Restarting)
    ensures var t := Rebooted(s, r);
            && t.mode == Off && t.fd.None? && t.buf == [] && t.child == NoChild && t.enabled == r.enabled
            && t.backup == Idle && !t.canRemove && t.dir == s.dir && t.disk == s.disk
            && t.am == Reloaded(DiskManifest(s)) && t.aborted == s.aborted
            && (t.am.incr == [] ==> t.am.incrSeq == 0) && !t.am.dirty
            && t.am.incr == DiskManifest(s).incr
  {
  }

  lemma RecoverIndexed(s: State)
    requires Indexed(s) && Present(s.am.incr, s.dir, s.data)
    ensures Indexed(s.(data := RecoverLast(s.am, s.dir, s.data)))
  {
    hide Recover;
  }

  lemma RecoverLog(s: State)
    requires Present(s.am.incr, s.dir, s.data) && s.am.incr != []
    ensures var i := s.dir[s.am.incr[|s.am.incr| - 1].name];
            i < |RecoverLast(s.am, s.dir, s.data)| && RecoverLast(s.am, s.dir, s.data)[i].Log?
  {
    hide Recover;
  }

  lemma RecoverNothing(s: State)
    requires s.am.incr == []
    ensures RecoverLast(s.am, s.dir, s.data) == s.data
  {
  }

  lemma IndexedSame(s: State, t: State)
    requires Indexed(s) && t.dir == s.dir && t.data == s.data && t.fd == s.fd
    ensures Indexed(t)
  {
  }

  lemma FilesOkParts(m: AofManifest, dir: map<FileName, Inode>, data: seq<Content>)
    requires FilesOk(m, dir, data)
    ensures BasePresent(m.base, dir, data) && Present(m.incr, dir, data) && Loadable(Logs(m.incr, dir, data))
  {
  }

  /** What a restart relies on. */
  ghost predicate RestartGuard(s: State, r: Restarting) {
    CounterKept(s) && (r.enabled ==> NameFree(s))
  }

  lemma RestartInv(s: State, r: Restarting)
    requires Inv(s) && RestartGuard(s, r)
    ensures Inv(Restart(s, r))
  {
    hide Core, SealedOk, CounterKept, OpenOnStart, RecoverLast, DelHistory, LoadAll, Rebooted;
    RebootedFields(s, r);
    if r.enabled {
      RestartOn(s, r);
      RestartFields(s, r);
    } else {
      RebootedCore(s, r);
      DelHistoryCore(Rebooted(s, r), r.stuck, r.p);
      DelHistoryMode(Rebooted(s, r), r.stuck, r.p);
    }
  }

  lemma RestartFields(s: State, r: Restarting)
    requires r.enabled
    ensures var t := Restart(s, r); t.enabled && t.backup == Idle && !t.canRemove
  {
    hide OpenOnStart, RecoverLast, DelHistory, LoadAll, Rebooted;
    RebootedFields(s, r);
    var s0 := Rebooted(s, r);
    if LoadAll(s0.am, s0.dir, s0.data).Some? {
      LoadAllPresent(s0.am, s0.dir, s0.data);
      var s1 := s0.(data := RecoverLast(s0.am, s0.dir, s0.data), hist := LoadAll(s0.am, s0.dir, s0.data).value, mode := On);
      OpenOnStartMode(s1, r.rdb, r.offset);
      DelHistoryMode(OpenOnStart(s1, r.rdb, r.offset), r.stuck, r.p);
    }
  }

  lemma LoadAllPresent(m: AofManifest, dir: map<FileName, Inode>, data: seq<Content>)
    requires LoadAll(m, dir, data).Some?
    ensures Present(m.incr, dir, data) && BasePresent(m.base, dir, data)
  {
  }
}
