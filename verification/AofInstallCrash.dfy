/** What a crash inside the handler that installs a finished rewrite leaves. */
module AofInstallCrash {
  import opened Options
  import opened Decimal
  import opened Resp
  import opened Manifest
  import opened AofLog
  import opened AofServer
  import opened AofInvariant
  import opened AofRewrite
  import opened AofBackup
  import opened AofSafety
  import opened AofInterrupt
  import opened AofTheorems
  import opened AofExact
  import opened AofHole

  // ---------------------------------------------------------------- with AOF on

  lemma TornZero(s: State)
    ensures Torn(s, 0) == s.data
  {
    if s.fd.Some? && s.fd.value < |s.data| && s.data[s.fd.value].Log? {
      assert s.data[s.fd.value := s.data[s.fd.value]] == s.data;
    }
  }

  /** The manifest on disk lists an INCR. */
  lemma DiskLists(s: State)
    requires Core(s) && s.am.incr != []
    ensures DiskManifest(s).incr != []
  {
    hide WellFormed, FilesOk, Live, ChildOk, Indexed, Positioned;
  }

  /** With AOF on, or once the manifest of a first rewrite is written, a crash at any stage leaves files
      that load to exactly the commands wholly written, and nothing stands in the way of a restart. */
  lemma InstallCrashKeepsHistory(s: State, d: Done, stage: Stage)
    requires Inv(s) && s.child.AofChild? && (s.mode == On || (s.mode == WaitRewrite && stage == ManifestWritten))
    ensures s.fd.Some? && s.fd.value < |s.data| && s.data[s.fd.value].Log?
    ensures var t := Interrupted(s, d, stage);
            var loaded := LoadAll(DiskManifest(t), t.dir, t.data);
            && loaded.Some? && Exactly(s.hist, loaded.value, Leftover(s, 0), s.buf)
            && forall r :: RestartGuard(t, r)
  {
    hide Core, LoadAll, Exactly, Torn, BackupOk, Install;
    if s.mode == On { OpenLog(s); } else { FirstOpen(s); }
    var t := Interrupted(s, d, stage);
    InterruptedInv(s, d, stage);
    if stage == ManifestWritten {
      InstalledCore(s, d);
      var u := Finished(s, InFull(d));
      FinishedFields(s, d);
      CrashKeepsHistory(u, 0);
      TornZero(u);
    } else {
      RenamedCore(s, d, stage);
      CrashKeepsHistory(s, 0);
      TornZero(s);
      LiveLists(s);
      assert SameFiles(DiskManifest(s), s.am) by { CoreDisk(s); }
      SameFilesLoad(DiskManifest(s), s.am, t.dir, t.data);
      SameFilesLoad(DiskManifest(s), s.am, s.dir, s.data);
    }
    assert s.buf[0..] == s.buf;
    DiskLists(t);
  }

  /** The same over whole runs, from a server that never had an append-only file. */
  lemma InstallCrashSafety(hist: seq<Command>, es: seq<Event>, d: Done, stage: Stage)
    requires Guarded(Init(hist), es)
    requires var s := RunEvents(Init(hist), es);
             s.child.AofChild? && (s.mode == On || (s.mode == WaitRewrite && stage == ManifestWritten))
    ensures var s := RunEvents(Init(hist), es);
            && s.fd.Some? && s.fd.value < |s.data| && s.data[s.fd.value].Log?
            && var t := Interrupted(s, d, stage);
               var loaded := LoadAll(DiskManifest(t), t.dir, t.data);
               loaded.Some? && Exactly(s.hist, loaded.value, Leftover(s, 0), s.buf)
  {
    hide Inv, LoadAll, Exactly, Leftover, RunEvents, Guarded, Interrupted, RestartGuard;
    InitInv(hist);
    RunInv(Init(hist), es);
    InstallCrashKeepsHistory(RunEvents(Init(hist), es), d, stage);
  }

  lemma LiveLists(s: State)
    requires Core(s) && s.mode == On
    ensures s.am.incr != []
  {
  }

  lemma CoreDisk(s: State)
    requires Core(s)
    ensures SameFiles(DiskManifest(s), s.am)
  {
  }

  lemma FinishedFields(s: State, d: Done)
    requires Core(s) && s.child.AofChild? && s.mode != Off
    ensures var t := Finished(s, InFull(d));
            && t.fd == s.fd && t.buf == s.buf && t.hist == s.hist && t.mode == On && t.am.incr != []
            && (s.fd.Some? && s.fd.value < |s.data| ==> s.fd.value < |t.data| && t.data[s.fd.value] == s.data[s.fd.value])
  {
    hide Core;
    InFullInstalls(s, d);
    InstallSucceeds(s, InFull(d));
    hide NewBase, NewIncr, MarkRewritten;
  }

  // ---------------------------------------------------------------- the first rewrite

  /** A server that starts without an INCR while a file has the next INCR name. */
  ghost predicate StartsStale(s: State, b: seq<byte>) {
    && Indexed(s) && WellFormed(s.am) && FilesOk(s.am, s.dir, s.data) && !s.aborted
    && s.mode == On && s.child == NoChild && s.buf == [] && s.am.incr == []
    && s.hist == BaseCmds(s.am.base, s.dir, s.data)
    && var n := IncrName(s.am.incrSeq + 1);
       n in s.dir && s.data[s.dir[n]] == Log(b) && Cut(b)
  }

  lemma ForcedStale(s: State, rdb: bool, b: seq<byte>)
    requires StartsStale(s, b) && s.fd.None?
    ensures var f := ForceBase(s, rdb); StartsStale(f, b) && f.am.base.Some? && f.hist == s.hist && f.fd.None?
  {
    assert s.dir[IncrName(s.am.incrSeq + 1)] < |s.data|;
    hide WellFormed, FilesOk, Indexed, Cut;
    if s.am.base.None? {
      ForceBaseParts(s, rdb);
    }
  }

  /** What OpenOnStart opens then. */
  lemma StaleOpened(s: State, rdb: bool, offset: int, b: seq<byte>)
    requires StartsStale(s, b) && s.fd.None?
    ensures var t := OpenOnStart(s, rdb, offset);
            && Core(Dead(t)) && t.am.base.Some? && |t.am.incr| == 1 && t.buf == [] && t.mode == On && t.hist == s.hist
            && BaseCmds(t.am.base, t.dir, t.data) == s.hist
            && var n := t.am.incr[0].name;
               n in t.dir && t.fd == Some(t.dir[n]) && t.data[t.dir[n]] == Log(b)
  {
    hide WellFormed, FilesOk, Cut, ForceBase;
    ForcedStale(s, rdb, b);
    var f := ForceBase(s, rdb);
    FilesOkParts(f.am, f.dir, f.data);
    var m := NewIncr(f.am, offset);
    NewIncrWellFormed(f.am, offset);
    WellFormedDirty(m, false);
    DiskIs(m);
    StaleFiles(f, m, b);
    var t := OpenOnStart(s, rdb, offset);
    assert t.dir == f.dir && t.data == f.data && t.am == m.(dirty := false);
    CoreOf(Dead(t));
  }

  lemma StaleFiles(f: State, m: AofManifest, b: seq<byte>)
    requires FilesOk(f.am, f.dir, f.data) && f.am.incr == [] && f.am.base.Some? && Cut(b)
    requires m.base == f.am.base && |m.incr| == 1
    requires var n := m.incr[0].name; n in f.dir && f.dir[n] < |f.data| && f.data[f.dir[n]] == Log(b)
    ensures FilesOk(m.(dirty := false), f.dir, f.data)
  {
    hide Cut;
    var logs := Logs(m.incr, f.dir, f.data);
    assert logs == [b] && logs[..0] == [];
  }

  lemma DeadDelHistory(s: State, stuck: set<FileName>, p: Persist)
    ensures DelHistory(Dead(s), stuck, p) == Dead(DelHistory(s, stuck, p))
    ensures var t := DelHistory(s, stuck, p);
            && t == s.(dir := t.dir, disk := t.disk, am := t.am)
            && t.am.base == s.am.base && t.am.incr == s.am.incr
            && forall n :: n in t.dir ==> n in s.dir && t.dir[n] == s.dir[n]
  {
    hide StuckHistory, UnlinkedNames;
  }

  /** The server takes the file for its own: what it finds next time is followed by the commands of the
      file, and all is well exactly when the file is empty. */
  lemma StaleStart(s: State, rdb: bool, offset: int, stuck: set<FileName>, p: Persist, b: seq<byte>)
    requires StartsStale(s, b) && s.fd.None?
    ensures var t := DelHistory(OpenOnStart(s, rdb, offset), stuck, p);
            && t.mode == On && t.hist == s.hist
            && LoadAll(DiskManifest(t), t.dir, t.data) == Some(s.hist + Decoded(b))
            && (Live(t) <==> b == [])
  {
    hide Decoded, Complete, Cut, WellFormed, Flat, OpenOnStart, DelHistory, LoadAll, StartsStale, Run;
    StaleOpened(s, rdb, offset, b);
    var t0 := OpenOnStart(s, rdb, offset);
    DeadDelHistory(t0, stuck, p);
    DelHistoryCore(Dead(t0), stuck, p);
    var t := DelHistory(t0, stuck, p);
    StaleLive(t, b);
    hide FilesOk;
    LoadOfFilesOk(t.am, t.dir, t.data);
    SameFilesLoad(DiskManifest(t), t.am, t.dir, t.data);
    OneFlat(Logs(t.am.incr, t.dir, t.data), b);
  }

  lemma OneFlat(logs: seq<seq<byte>>, b: seq<byte>)
    requires logs == [b]
    ensures Flat(logs) == Decoded(b)
  {
    hide Decoded;
    FlatSnoc([], b);
    assert [] + [b] == logs && Flat([]) + Decoded(b) == Decoded(b);
  }

  lemma NoMore(h: seq<Command>, x: seq<Command>)
    requires h == h + x
    ensures x == []
  {
    assert |h + x| == |h| + |x|;
  }

  lemma StaleLive(t: State, b: seq<byte>)
    requires FilesOk(t.am, t.dir, t.data) && t.am.base.Some? && |t.am.incr| == 1 && t.buf == []
    requires var n := t.am.incr[0].name; t.fd == Some(t.dir[n]) && t.data[t.dir[n]] == Log(b)
    requires t.hist == BaseCmds(t.am.base, t.dir, t.data)
    ensures Live(t) <==> b == []
    ensures Logs(t.am.incr, t.dir, t.data) == [b]
  {
    hide Decoded, Complete, Flat, Run, Loadable;
    var logs := Logs(t.am.incr, t.dir, t.data);
    assert logs == [b];
    assert Full(logs, t.buf) == [b] by { assert logs[..0] == [] && b + [] == b; }
    OneFlat([b], b);
    EmptyLog();
    assert t.hist + [] == t.hist;
    if Live(t) {
      assert Complete([b][0]);
      CompleteRun(b);
      assert t.hist == t.hist + Decoded(b);
      NoMore(t.hist, Decoded(b));
      assert EncodeAll([]) == [];
    }
  }

  /** A first rewrite interrupted between the rename of its INCR and the manifest. A restart with AOF on
      is sound if and only if the manifest on disk lists an INCR, the counter has moved on, or nothing
      was written to the INCR; otherwise it takes the INCR for its own, and the commands in it are
      replayed on top of what the manifest on disk lists. */
  lemma FirstInstallCrashIff(s: State, d: Done, r: Restarting)
    requires Inv(s) && s.mode == WaitRewrite && s.child.AofChild? && RestartGuard(s, r) && r.enabled
    ensures s.fd.Some? && s.fd.value < |s.data| && s.data[s.fd.value].Log?
    ensures var b := s.data[s.fd.value].bytes;
            var t := Interrupted(s, d, IncrRenamed);
            var u := Restart(t, r);
            && u.mode == On
            && (NameFree(t) <==> s.am.incr != [] || s.am.incrSeq != 0)
            && LoadAll(DiskManifest(u), u.dir, u.data) == Some(if NameFree(t) then u.hist else u.hist + Decoded(b))
            && (Live(u) <==> NameFree(t) || b == [])
  {
    hide Decoded, LoadAll, Live, Restart, Core, BackupOk;
    FirstRenamed(s, d);
    var t := Interrupted(s, d, IncrRenamed);
    InterruptedInv(s, d, IncrRenamed);
    if NameFree(t) {
      RestartOn(t, r);
      RestartedLive(t, r);
    } else {
      RestartStale(t, r, s.data[s.fd.value].bytes);
    }
  }

  lemma FirstRenamed(s: State, d: Done)
    requires Core(s) && s.mode == WaitRewrite && s.child.AofChild? && NameFree(s)
    ensures s.fd.Some? && s.fd.value < |s.data| && s.data[s.fd.value].Log?
    ensures var t := Interrupted(s, d, IncrRenamed);
            var n := IncrName(s.am.incrSeq + 1);
            && t.disk == s.disk && (NameFree(t) <==> s.am.incr != [] || s.am.incrSeq != 0)
            && n in t.dir && t.dir[n] < |t.data| && t.data[t.dir[n]] == s.data[s.fd.value]
    ensures Cut(s.data[s.fd.value].bytes)
  {
    hide Decoded, Complete, Live, FilesOk, Cut;
    var b := s.data[s.fd.value].bytes;
    assert Tail(s) == b + s.buf && Complete(b + s.buf);
    TornWrite(b, s.buf, 0);
    assert b + s.buf[..0] == b;
  }

  lemma RestartedLive(s: State, r: Restarting)
    requires Core(Restart(s, r)) && Restart(s, r).mode == On && r.enabled
    ensures var u := Restart(s, r); Live(u) && LoadAll(DiskManifest(u), u.dir, u.data) == Some(u.hist)
  {
    hide LoadAll, Live, Decoded, Complete;
    RestartBuf(s, r);
    var u := Restart(s, r);
    InvLoadsHistory(u);
  }

  lemma RestartBuf(s: State, r: Restarting)
    ensures Restart(s, r).buf == []
  {
    hide LoadAll, OpenOnStart, RecoverLast, DelHistory, Rebooted;
    RebootedFields(s, r);
    var s0 := Rebooted(s, r);
    DelHistoryMode(s0, r.stuck, r.p);
    if LoadAll(s0.am, s0.dir, s0.data).Some? {
      LoadAllPresent(s0.am, s0.dir, s0.data);
      var s1 := s0.(data := RecoverLast(s0.am, s0.dir, s0.data), hist := LoadAll(s0.am, s0.dir, s0.data).value, mode := On);
      OpenOnStartMode(s1, r.rdb, r.offset);
      DelHistoryMode(OpenOnStart(s1, r.rdb, r.offset), r.stuck, r.p);
    }
  }

  lemma RestartStale(s: State, r: Restarting, b: seq<byte>)
    requires Core(s) && s.mode == Off && s.fd.None? && CounterKept(s) && r.enabled && Cut(b)
    requires DiskManifest(s).incr == [] && IncrName(1) in s.dir && s.data[s.dir[IncrName(1)]] == Log(b)
    ensures var u := Restart(s, r);
            && u.mode == On
            && LoadAll(DiskManifest(u), u.dir, u.data) == Some(u.hist + Decoded(b))
            && (Live(u) <==> b == [])
  {
    hide Decoded, Complete, WellFormed, DiskAgrees, Live, FilesOk, Indexed, RecoverLast, Rebooted, OpenOnStart,
         CounterKept, DelHistory, Core, Loadable, LoadLogs, Cut;
    RebootedCore(s, r);
    RebootedFields(s, r);
    var s0 := Rebooted(s, r);
    CoreParts(s0);
    LoadOfFilesOk(s0.am, s0.dir, s0.data);
    FilesOkParts(s0.am, s0.dir, s0.data);
    RecoverNothing(s0);
    assert Flat([]) == [] && Logs(s0.am.incr, s0.dir, s0.data) == [];
    var h := BaseCmds(s0.am.base, s0.dir, s0.data);
    assert h + [] == h;
    var s1 := s0.(hist := h, mode := On);
    IndexedSame(s0, s1);
    assert s0.data == s.data by { RebootedData(s, r); }
    StaleStart(s1, r.rdb, r.offset, r.stuck, r.p, b);
  }

  lemma RebootedData(s: State, r: Restarting)
    requires s.fd.None?
    ensures Rebooted(s, r).data == s.data
  {
  }
}
