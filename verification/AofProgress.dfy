/** What the append-only file protocol achieves: the history is what was executed, rewrites take
    effect, and backups get sealed, exactly when the system calls they need succeed. */
module AofProgress {
  import opened Options
  import opened Resp
  import opened Manifest
  import opened AofServer
  import opened AofInvariant
  import opened AofRewrite
  import opened AofBackup

  // ---------------------------------------------------------------- the history

  lemma StopHist(s: State, sp: Stopping)
    requires s.mode != Off
    ensures StopAof(s, sp).hist == s.hist
    decreases Rank(s), 0
  {
    hide Flush, UpdateEnd;
    FailHist(StopFiles(s, sp), sp);
  }

  lemma FailHist(s: State, sp: Stopping)
    ensures BackupFailed(s, sp).hist == s.hist
    decreases Rank(s), 2
  {
    hide StopAof;
    var s1 := s.(backup := Failed);
    if InProgress(s.backup) && !s.enabled && s.mode != Off { StopHist(s1, sp); }
  }

  lemma RewriteHist(s: State, rw: Rewrite)
    ensures StartRewrite(s, rw).0.hist == s.hist
  {
    hide Open, DiskAfter;
  }

  lemma StartAofHist(s: State, rw: Rewrite)
    ensures StartAof(s, rw).0.hist == s.hist
  {
    hide StartRewrite;
    RewriteHist(KillAofChild(s.(mode := WaitRewrite)), rw);
  }

  lemma SucceededHist(s: State, d: Done)
    requires s.child.AofChild?
    ensures Succeeded(s, d).hist == s.hist
  {
    InstallFields(s, d);
    hide Install, DiskAfter, UnlinkedNames, StuckHistory;
  }

  lemma DoneHist(s: State, d: Done)
    ensures RewriteDone(s, d).hist == s.hist
  {
    hide BackupFailed, Install, RewriteDone, Succeeded;
    if s.child.AofChild? {
      RewriteDoneCases(s, d);
      InstallFields(s, d);
      SucceededHist(s, d);
      FailHist(Succeeded(s, d), d.sp);
      FailHist(GaveUp(s, if d.exitOk then Install(s, d).0 else s), d.sp);
    } else {
      RewriteDoneNone(s, d);
    }
  }

  lemma PendingHist(s: State, scheduled: bool, rw: Rewrite, sp: Stopping)
    ensures StartPending(s, scheduled, rw, sp).hist == s.hist
  {
    hide BackupFailed, StartAof, StartRewrite;
    var s0 := s.(canRemove := s.dir == map[] && s.disk.None? && !scheduled);
    RewriteHist(s, rw);
    StartAofHist(s0, rw);
    FailHist(StartRewrite(s, rw).0, sp);
    FailHist(StartAof(s0, rw).0, sp);
  }

  lemma SealHist(s: State, q: Sealing)
    ensures Seal(s, q).hist == s.hist
  {
    if s.backup == Incrementing && SealAsserts(s) {
      SealCases(s, q);
      hide Seal;
      FlushFields(s, q.w);
      var s1 := Flush(s, q.w);
      UpdateEndFields(s1, q.offset, q.p);
      var s2 := UpdateEnd(s1, q.offset, q.p);
      var s3 := PinIncr(s2, s.am.incr[0].name);
      OpenNewIncrFields(s3, q.r);
      hide BackupFailed, StopAof, Flush, UpdateEnd, OpenNewIncr;
      FailHist(s1, q.sp);
      FailHist(s2, q.sp);
      FailHist(s3, q.sp);
      FailHist(OpenNewIncr(s3, q.r).0, q.sp);
      var s4 := s3.(backup := Sealed, sealedHist := s.hist);
      if s4.mode != Off { StopHist(s4, q.sp); }
    }
  }

  lemma EnabledHist(s: State, on: bool, rw: Rewrite, sp: Stopping)
    ensures ChangeEnabled(s, on, rw, sp).hist == s.hist
  {
    hide StopAof, StartAof;
    var s1 := s.(enabled := on);
    if s.mode != Off { StopHist(s1, sp); } else { StartAofHist(s1, rw); }
  }

  function Executed(es: seq<Event>): seq<Command> {
    if es == [] then [] else (if es[0].Execute? then [es[0].c] else []) + Executed(es[1..])
  }

  lemma StepHist(s: State, e: Event)
    requires !IsCrash(e)
    ensures Step(s, e).hist == s.hist + if e.Execute? then [e.c] else []
  {
    hide Flush, StartRewrite, RewriteDone, ChangeEnabled, DelHistory, StartPending, Seal, BackupFailed;
    match e {
      case FlushBuf(w) => FlushFields(s, w);
      case BgRewrite(rw) => RewriteHist(s, rw);
      case ChildExit(d) => DoneHist(s, d);
      case SetEnabled(on, rw, sp) => EnabledHist(s, on, rw, sp);
      case SetGc(disabled, stuck, p) => GcHist(s.(gcDisabled := disabled), stuck, p);
      case StartBackup(inExec, scheduled, rw, sp) =>
        PendingHist(s.(backup := Pending, bBase := None, bIncr := None, canRemove := false), scheduled, rw, sp);
      case BackupCron(scheduled, rw, sp) => PendingHist(s, scheduled, rw, sp);
      case SealBackup(q) => SealHist(s, q);
      case AbortBackup(sp) => FailHist(s, sp);
      case _ =>
    }
  }

  lemma GcHist(s: State, stuck: set<FileName>, p: Persist)
    ensures DelHistory(s, stuck, p).hist == s.hist
  {
  }

  predicate NoCrash(es: seq<Event>) {
    forall i :: 0 <= i < |es| ==> !IsCrash(es[i])
  }

  lemma RunCons(s: State, es: seq<Event>)
    requires es != []
    ensures RunEvents(s, es) == RunEvents(Step(s, es[0]), es[1..])
  {
    hide Step;
  }

  lemma ExecutedCons(h: seq<Command>, es: seq<Event>)
    requires es != []
    ensures h + (if es[0].Execute? then [es[0].c] else []) + Executed(es[1..]) == h + Executed(es)
  {
  }

  /** The history is what was executed, whatever else the server did meanwhile. */
  lemma {:induction false} HistoryOfRun(s: State, es: seq<Event>)
    requires NoCrash(es)
    ensures RunEvents(s, es).hist == s.hist + Executed(es)
    decreases |es|
  {
    if es == [] {
      assert s.hist + [] == s.hist;
    } else {
      var t, rest := Step(s, es[0]), es[1..];
      assert NoCrash(rest);
      hide *;
      StepHist(s, es[0]);
      HistoryOfRun(t, rest);
      RunCons(s, es);
      ExecutedCons(s.hist, es);
    }
  }

  // ---------------------------------------------------------------- backups

  lemma FailedNotSealed(s: State, sp: Stopping)
    requires Core(s) && Settings(s) && InProgress(s.backup)
    ensures BackupFailed(s, sp).backup == Failed
  {
    hide Core;
    BackupFailedCore(s, sp);
  }

  /** SEAL seals the backup exactly when its fsync, link and manifest succeed, and the rotation too
      if the append-only file goes on. */
  lemma SealIff(s: State, q: Sealing)
    requires Inv(s) && s.backup == Incrementing && SealGuard(s, q)
    ensures Seal(s, q).backup == Sealed <==>
            && q.fsyncOk && q.linkOk && s.am.incr[0].name !in s.bdir && q.manifestOk
            && (s.enabled ==> q.r.openOk && q.r.p == Written)
  {
    hide Core, Flush, UpdateEnd, BackupFailed, StopTempAof, OpenNewIncr, Seal, SealGuard, WriteOk;
    SealGuarded(s, q);
    SealCases(s, q);
    var s1 := Flush(s, q.w);
    FlushInv(s, q.w);
    FlushFields(s, q.w);
    UpdateEndInv(s1, q.offset, q.p);
    UpdateEndFields(s1, q.offset, q.p);
    var s2 := UpdateEnd(s1, q.offset, q.p);
    var n := s.am.incr[0].name;
    var s3 := PinIncr(s2, n);
    CoreIgnores(s2, s3);
    FailedNotSealed(s1, q.sp);
    FailedNotSealed(s2, q.sp);
    FailedNotSealed(s3, q.sp);
    assert n in s2.dir by { SingleIncr(s2); }
    if s.enabled {
      RotationIff(s3, q.r);
      SealedByRotation(s2, q.r);
      FailedNotSealed(OpenNewIncr(s3, q.r).0, q.sp);
    } else {
      StopTempBackup(s3.(backup := Sealed, sealedHist := s.hist), q.sp);
    }
  }

  lemma InstalledBase(s: State, d: Done)
    requires s.child.AofChild?
    ensures Install(s, d).1 <==>
            d.renameBaseOk && (s.mode == WaitRewrite ==> d.renameIncrOk && TempIncrName in s.dir) && d.p == Written
    ensures Install(s, d).1 ==> var b := Install(s, d).0.am.base; b.Some? && b.value.name == BaseName(s.am.baseSeq + 1, d.rdb)
  {
    hide AllAsHistory, DiskAfter;
  }

  lemma SucceededBase(s: State, d: Done)
    requires s.child.AofChild?
    ensures Succeeded(s, d).am.base == Install(s, d).0.am.base
  {
    hide Install, StuckHistory, UnlinkedNames, DiskAfter;
  }

  lemma WaitsWithTemp(s: State)
    requires Core(s) && s.child.AofChild? && s.mode == WaitRewrite
    ensures TempIncrName in s.dir
  {
  }

  /** The end of the snapshot moves a backup on exactly when the child, the renames, the manifest
      write and the link of the new BASE succeed. */
  lemma SnapshotIff(s: State, d: Done)
    requires Inv(s) && s.backup == Snapshotting && d.p != RenamedNotSynced
    ensures RewriteDone(s, d).backup == Incrementing <==>
            && d.exitOk && d.renameBaseOk && (s.mode == WaitRewrite ==> d.renameIncrOk) && d.p == Written
            && d.linkOk && BaseName(s.am.baseSeq + 1, d.rdb) !in s.bdir
  {
    hide Core, Install, RewriteDone, BackupFailed, Succeeded, GaveUp, KeepsFrozen;
    RewriteDoneCases(s, d);
    InstalledBase(s, d);
    if s.mode == WaitRewrite { WaitsWithTemp(s); }
    if d.exitOk && Install(s, d).1 {
      SucceededCore(s, d);
      SucceededMode(s, d);
      SucceededBase(s, d);
      FailedNotSealed(Succeeded(s, d), d.sp);
      BaseInDir(Succeeded(s, d));
    } else {
      GaveUpCore(s, d);
      FailedNotSealed(GaveUp(s, if d.exitOk then Install(s, d).0 else s), d.sp);
    }
  }

  lemma BaseInDir(s: State)
    requires Core(s) && s.am.base.Some?
    ensures s.am.base.value.name in s.dir
  {
  }

  // ---------------------------------------------------------------- rewrites

  /** A rewrite is forked exactly when no child runs, no backup pins the files, and the rotation and
      the fork succeed; its snapshot is the whole history. */
  lemma ForkIff(s: State, rw: Rewrite)
    ensures var (t, ok) := StartRewrite(s, rw);
            && (ok <==> && s.child == NoChild && s.backup != Snapshotting && s.backup != Incrementing && rw.forkOk
                        && (s.mode != Off ==> rw.r.openOk) && (s.mode == On ==> rw.r.p == Written))
            && (ok ==> t.child == AofChild(s.hist)) && (!ok ==> t.child == s.child)
  {
    FlushFields(s, rw.w);
    OpenNewIncrFields(Flush(s, rw.w), rw.r);
    RotationIff(Flush(s, rw.w), rw.r);
    hide Flush, OpenNewIncr;
  }

  lemma RotationIff(s: State, r: Rotate)
    ensures OpenNewIncr(s, r).1 <==> (s.mode != Off ==> r.openOk) && (s.mode == On ==> r.p == Written)
  {
    hide Open, DiskAfter;
  }

  lemma {:induction false} AllUnlinked(h: seq<AofInfo>)
    ensures StuckHistory(h, {}) == [] && forall i :: 0 <= i < |h| ==> h[i].name in UnlinkedNames(h, {})
    decreases |h|
  {
    if h != [] { AllUnlinked(h[1..]); }
  }

  /** The old BASE and the rewritten INCRs are history. */
  lemma InstalledHistory(m: AofManifest, rdb: bool)
    requires m.base.Some? && m.incr != []
    ensures var h := MarkRewritten(NewBase(m, rdb), true).hist;
            var n := |m.incr| - 1;
            && n < |h| && h[n].name == m.base.value.name
            && forall i :: 0 <= i < n ==> h[i].name == m.incr[i].name
  {
  }

  lemma GcTakesAll(f: State, p: Persist)
    requires !f.gcDisabled && f.am.hist != []
    ensures var t := DelHistory(f, {}, p);
            && t.am.hist == [] && t.am.base == f.am.base && t.am.incr == f.am.incr && t.data == f.data
            && (forall i :: 0 <= i < |f.am.hist| ==> f.am.hist[i].name !in t.dir)
            && (forall n :: n in t.dir ==> n in f.dir && t.dir[n] == f.dir[n])
  {
    AllUnlinked(f.am.hist);
    hide StuckHistory, UnlinkedNames, DiskAfter;
    assert f.am.hist[0].name in UnlinkedNames(f.am.hist, {});
  }

  lemma SucceededOn(s: State, d: Done)
    requires Core(s) && s.mode == On && s.child.AofChild?
    requires d.renameBaseOk && d.p == Written
    ensures s.fd.Some? && s.am.incr != [] && s.am.base.Some?
    ensures Install(s, d).1 && Succeeded(s, d) == DelHistory(InstalledOn(s, d.rdb), d.stuck, d.p2)
  {
    CoreParts(s);
    LiveFd(s);
    hide Core, Live, MarkRewritten, NewBase, NewIncr, DiskAfter;
    assert Install(s, d).1;
    InstallIsOn(s, d);
    hide Install, InstalledOn, StuckHistory, UnlinkedNames;
  }

  /** The snapshot is the BASE, the INCR written since the fork the only one, and nothing of the
      files before is left. */
  ghost predicate Rewritten(s: State, snap: seq<Command>, t: State) {
    && t.am.base.Some? && t.am.base.value.name in t.dir && t.dir[t.am.base.value.name] < |t.data|
    && t.data[t.dir[t.am.base.value.name]] == Snapshot(snap)
    && s.am.incr != [] && t.am.incr == [s.am.incr[|s.am.incr| - 1]] && t.am.hist == []
    && (s.am.base.Some? ==> s.am.base.value.name !in t.dir)
    && (forall i :: 0 <= i < |s.am.incr| - 1 ==> s.am.incr[i].name !in t.dir)
  }

  lemma InstalledEffect(s: State, rdb: bool, p: Persist)
    requires WellFormed(s.am) && s.child.AofChild? && s.am.base.Some? && s.am.incr != [] && !s.gcDisabled
    requires var t := DelHistory(InstalledOn(s, rdb), {}, p); t.am.base.Some? ==> t.am.base.value.name in t.dir
    ensures Rewritten(s, s.child.snap, DelHistory(InstalledOn(s, rdb), {}, p))
  {
    hide DelHistory, MarkRewritten, NewBase, WellFormed;
    InstalledManifest(s.am, rdb);
    InstalledHistory(s.am, rdb);
    var f := InstalledOn(s, rdb);
    var bn := BaseName(s.am.baseSeq + 1, rdb);
    assert f.dir[bn] == |s.data| && f.data[|s.data|] == Snapshot(s.child.snap) && f.am.base.value.name == bn;
    var h := f.am.hist;
    assert h != [] && f.am.incr == [s.am.incr[|s.am.incr| - 1]];
    hide InstalledOn;
    GcTakesAll(f, p);
    var n := |s.am.incr| - 1;
    assert h[n].name == s.am.base.value.name;
    assert forall i :: 0 <= i < n ==> h[i].name == s.am.incr[i].name;
  }

  /** A rewrite whose system calls succeed takes effect, and its history is collected. */
  lemma RewriteTakesEffect(s: State, d: Done)
    requires Inv(s) && s.mode == On && s.child.AofChild? && s.backup != Snapshotting
    requires d.exitOk && d.renameBaseOk && d.p == Written && !s.gcDisabled && d.stuck == {}
    ensures Rewritten(s, s.child.snap, RewriteDone(s, d))
  {
    CoreParts(s);
    SucceededOn(s, d);
    RewriteDoneCases(s, d);
    SucceededCore(s, d);
    var t := Succeeded(s, d);
    BaseInDir(t);
    assert t.backup == s.backup;
    assert SnapshotDone(t, d.linkOk, d.sp) == t;
    hide *;
    InstalledEffect(s, d.rdb, d.p2);
  }
}
