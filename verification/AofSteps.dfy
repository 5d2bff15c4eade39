/** What each step of the append-only-file protocol does, in terms of its outcomes alone. */
module AofSteps {
  import opened Options
  import opened Resp
  import opened Manifest
  import opened AofLog
  import opened AofServer
  import opened AofInvariant
  import opened AofBackup
  import opened AofTheorems
  import opened AofInstallCrash
  import opened AofProgress

  // ---------------------------------------------------------------- starting a backup

  lemma FailedIs(s: State, sp: Stopping)
    requires InProgress(s.backup)
    ensures BackupFailed(s, sp).backup == Failed
  {
    hide StopTempAof;
    StopTempBackup(s.(backup := Failed), sp);
  }

  /** The rotation and the fork for the snapshot of a backup succeed. */
  predicate SnapshotForks(s: State, rw: Rewrite) {
    s.child == NoChild && rw.r.openOk && rw.forkOk && (s.mode == On ==> rw.r.p == Written)
  }

  lemma CronStep(s: State, scheduled: bool, rw: Rewrite, sp: Stopping)
    ensures Step(s, BackupCron(scheduled, rw, sp)) == StartPending(s, scheduled, rw, sp)
  {
    hide StartPending;
  }

  /** The state in which a pending backup of a server without AOF switches it on. */
  function Owning(s: State, scheduled: bool): State {
    s.(canRemove := s.dir == map[] && s.disk.None? && !scheduled)
  }

  lemma PendingStart(s: State, scheduled: bool, rw: Rewrite, sp: Stopping)
    requires s.backup == Pending && s.child == NoChild
    ensures var (t, ok) := if s.mode == Off then StartAof(Owning(s, scheduled), rw) else StartRewrite(s, rw);
            StartPending(s, scheduled, rw, sp) ==
            if !ok || !t.child.AofChild? then BackupFailed(t, sp) else t.(backup := Snapshotting)
  {
    hide StartRewrite, BackupFailed, StartAof;
  }

  lemma PendingForks(s: State, scheduled: bool, rw: Rewrite, sp: Stopping)
    requires s.backup == Pending && s.child == NoChild
    ensures var t := StartPending(s, scheduled, rw, sp);
            && (t.backup == Snapshotting <==> SnapshotForks(s, rw)) && (t.backup == Snapshotting || t.backup == Failed)
            && (t.backup == Snapshotting ==>
                  && t.child == AofChild(s.hist) && t.mode == (if s.mode == Off then WaitRewrite else s.mode)
                  && t.canRemove == if s.mode == Off then s.dir == map[] && s.disk.None? && !scheduled else s.canRemove)
  {
    hide StartRewrite, BackupFailed, StartAof, StartPending;
    PendingStart(s, scheduled, rw, sp);
    if s.mode == Off {
      var s0 := Owning(s, scheduled);
      StartAofIff(s0, rw);
      StartAofFields(s0, rw);
      FailedIs(StartAof(s0, rw).0, sp);
    } else {
      ForkIff(s, rw);
      StartRewriteFields(s, rw);
      FailedIs(StartRewrite(s, rw).0, sp);
    }
  }

  /** What becomes of a pending backup: it takes over a rewrite that runs with AOF on, waits while any
      other child runs, and otherwise forks its own rewrite, with the whole history, or fails. */
  lemma PendingIff(s: State, scheduled: bool, rw: Rewrite, sp: Stopping)
    requires s.backup == Pending
    ensures var t := Step(s, BackupCron(scheduled, rw, sp));
            && (t.backup == Snapshotting <==> (s.child.AofChild? && s.mode != Off) || SnapshotForks(s, rw))
            && (t.backup == Pending <==> s.child == OtherChild || (s.child.AofChild? && s.mode == Off))
            && (t.backup == Snapshotting || t.backup == Pending || t.backup == Failed)
            && (s.child != NoChild ==> t == s.(backup := t.backup))
            && (t.backup == Snapshotting && s.child == NoChild ==>
                  && t.child == AofChild(s.hist) && t.mode == (if s.mode == Off then WaitRewrite else s.mode)
                  && t.canRemove == if s.mode == Off then s.dir == map[] && s.disk.None? && !scheduled else s.canRemove)
  {
    hide Step;
    CronStep(s, scheduled, rw, sp);
    if s.child == NoChild {
      hide StartPending;
      PendingForks(s, scheduled, rw, sp);
    }
  }

  /** startAppendOnly with no child running. */
  lemma StartAofIff(s: State, rw: Rewrite)
    requires s.child == NoChild && s.backup != Snapshotting && s.backup != Incrementing
    ensures var (t, ok) := StartAof(s, rw);
            && (ok <==> rw.r.openOk && rw.forkOk)
            && (ok ==> t.mode == WaitRewrite && t.child == AofChild(s.hist)) && (!ok ==> t.mode == Off && t.child == NoChild)
  {
    hide StartRewrite;
    ForkIff(s.(mode := WaitRewrite), rw);
    StartRewriteFields(s.(mode := WaitRewrite), rw);
  }

  /** BACKUP START is refused while a backup is in progress or sealed or its directory is not empty;
      inside EXEC the backup stays pending; otherwise it starts as a pending one does. */
  lemma StartBackupIff(s: State, inExec: bool, scheduled: bool, rw: Rewrite, sp: Stopping)
    ensures var t := Step(s, StartBackup(inExec, scheduled, rw, sp));
            var free := s.backup in {Idle, Failed} && s.bdir == map[];
            && (!free ==> t == s)
            && (free && inExec ==> t == s.(backup := Pending, bBase := None, bIncr := None, canRemove := false))
            && (free && !inExec ==>
                  t == Step(s.(backup := Pending, bBase := None, bIncr := None, canRemove := false),
                            BackupCron(scheduled, rw, sp)))
  {
    hide StartPending;
  }

  // ---------------------------------------------------------------- commands, flushes and rewrites

  /** A command joins the history, and the buffer exactly when AOF is on or the first rewrite runs. */
  lemma ExecuteIff(s: State, c: Command)
    ensures var t := Step(s, Execute(c));
            && t.hist == s.hist + [c] && t == s.(hist := t.hist, buf := t.buf)
            && (t.buf == s.buf + Encode(c) <==> s.mode == On || (s.mode == WaitRewrite && s.child.AofChild?))
            && (t.buf == s.buf || t.buf == s.buf + Encode(c))
  {
    assert |s.buf + Encode(c)| > |s.buf|;
    hide Encode;
  }

  /** A flush moves the bytes it writes from the front of the buffer to the end of the file: all of them, or
      those of a short write that is not taken back. */
  lemma FlushMoves(s: State, w: Write)
    requires Core(s) && s.fd.Some? && s.fd.value < |s.data| && s.data[s.fd.value].Log?
    ensures var t := Step(s, FlushBuf(w));
            var k := if w.n >= |s.buf| then |s.buf| else if w.undone then 0 else w.n;
            && t.buf == s.buf[k..] && t.data == s.data[s.fd.value := Log(s.data[s.fd.value].bytes + s.buf[..k])]
            && t == s.(buf := t.buf, data := t.data, cur := t.cur)
  {
    CoreParts(s);
    hide Core, Flush, Positioned;
    FlushIs(s, w);
  }

  /** BGREWRITEAOF forks exactly when no child runs, no backup pins the files, and the rotation and the fork
      succeed; the child has the whole history. A first rewrite that cannot start leaves neither descriptor
      nor buffer nor temporary file. */
  lemma BgRewriteIff(s: State, rw: Rewrite)
    ensures var t := Step(s, BgRewrite(rw));
            var forks := && s.child == NoChild && s.backup !in {Snapshotting, Incrementing} && rw.forkOk
                         && (s.mode != Off ==> rw.r.openOk) && (s.mode == On ==> rw.r.p == Written);
            && t.child == (if forks then AofChild(s.hist) else s.child) && t.mode == s.mode
            && t.hist == s.hist && t.backup == s.backup && t.enabled == s.enabled
            && (s.mode == WaitRewrite && s.child == NoChild && s.backup !in {Snapshotting, Incrementing} && !forks ==>
                  NothingOpen(t))
  {
    hide StartRewrite;
    ForkIff(s, rw);
    StartRewriteFields(s, rw);
    if s.mode == WaitRewrite && s.child == NoChild && s.backup !in {Snapshotting, Incrementing} && !StartRewrite(s, rw).1 {
      GivenUp(s, rw);
    }
  }

  predicate NothingOpen(s: State) {
    s.fd == None && s.cur == NO_CURSOR && s.buf == [] && TempIncrName !in s.dir
  }

  lemma GivenUp(s: State, rw: Rewrite)
    requires s.mode == WaitRewrite && s.child == NoChild && s.backup != Snapshotting && s.backup != Incrementing
    requires !StartRewrite(s, rw).1
    ensures NothingOpen(StartRewrite(s, rw).0)
  {
    FlushFields(s, rw.w);
    OpenNewIncrFields(Flush(s, rw.w), rw.r);
    hide Flush, OpenNewIncr;
  }

  /** A rotation that succeeds lists the next INCR, which starts at the replication offset, in memory and on disk,
      and writes go to its empty file. */
  lemma RotationRecords(s: State, rw: Rewrite)
    requires s.mode == On && s.child == NoChild && s.backup !in {Snapshotting, Incrementing}
    requires rw.forkOk && rw.r.openOk && rw.r.p == Written
    ensures var t, n := Step(s, BgRewrite(rw)), s.am.incrSeq + 1;
            && t.am.incr == s.am.incr + [Info(IncrName(n), n, IncrFile, rw.r.offset, -1)] && t.am.incrSeq == n
            && t.am.base == s.am.base && t.am.hist == s.am.hist && t.disk == Some(t.am)
            && t.fd.Some? && t.fd.value < |t.data| && t.data[t.fd.value] == Log([]) && t.cur == NO_CURSOR
            && IncrName(n) in t.dir && t.dir[IncrName(n)] == t.fd.value
  {
    var f := Flush(s, rw.w);
    FlushFields(s, rw.w);
    hide Flush;
    var t := OpenNewIncr(f, rw.r).0;
    assert t.data[t.fd.value] == Log([]) && t.am == NewIncr(s.am, rw.r.offset).(dirty := false);
    hide OpenNewIncr;
    RotationIff(f, rw.r) by { assert OpenNewIncr(f, rw.r).0 == t; }
  }

  /** The end of a rewrite: the child is gone; its snapshot becomes the BASE, and AOF that waited for it is
      on, exactly when the child, the renames and the manifest write succeed. */
  lemma ChildExitIff(s: State, d: Done)
    requires Inv(s) && s.child.AofChild? && s.backup != Snapshotting && d.p != RenamedNotSynced
    ensures var t := Step(s, ChildExit(d));
            var done := d.exitOk && d.renameBaseOk && (s.mode == WaitRewrite ==> d.renameIncrOk) && d.p == Written;
            && t.child == NoChild && t.backup == s.backup && t.hist == s.hist
            && t.mode == (if done && s.mode == WaitRewrite then On else s.mode)
            && (done ==> t.am.base.Some? && t.am.base.value.name == BaseName(s.am.baseSeq + 1, d.rdb))
            && (!done ==> t.am == s.am && t.disk == s.disk)
  {
    hide Core, Install, RewriteDone, BackupFailed, Succeeded, GaveUp, KeepsFrozen, Step;
    ChildExitStep(s, d);
    RewriteDoneCases(s, d);
    InstalledBase(s, d);
    if s.mode == WaitRewrite { WaitsWithTemp(s); }
    if d.exitOk && Install(s, d).1 {
      SucceededCore(s, d);
      SucceededMode(s, d);
      SucceededBase(s, d);
    } else {
      GaveUpCore(s, d);
    }
  }

  /** The same for the snapshot of a backup, which then counts commands, or fails. */
  lemma SnapshotExitIff(s: State, d: Done)
    requires Inv(s) && s.backup == Snapshotting && d.p != RenamedNotSynced
    ensures var t := Step(s, ChildExit(d));
            var done := && d.exitOk && d.renameBaseOk && (s.mode == WaitRewrite ==> d.renameIncrOk) && d.p == Written
                        && d.linkOk && BaseName(s.am.baseSeq + 1, d.rdb) !in s.bdir;
            t.backup == if done then Incrementing else Failed
  {
    hide Step, Inv, RewriteDone;
    ChildExitStep(s, d);
    SnapshotIff(s, d);
    SnapshotEnds(s, d);
  }

  lemma ChildExitStep(s: State, d: Done)
    ensures Step(s, ChildExit(d)) == RewriteDone(s, d)
  {
    hide RewriteDone;
  }

  lemma SnapshotEnds(s: State, d: Done)
    requires Inv(s) && s.backup == Snapshotting && d.p != RenamedNotSynced
    ensures RewriteDone(s, d).backup in {Incrementing, Failed}
  {
    hide Core, Install, RewriteDone, BackupFailed, Succeeded, GaveUp, KeepsFrozen;
    RewriteDoneCases(s, d);
    if d.exitOk && Install(s, d).1 {
      SucceededCore(s, d);
      FailedIs(Succeeded(s, d), d.sp);
    } else {
      GaveUpCore(s, d);
      FailedIs(GaveUp(s, if d.exitOk then Install(s, d).0 else s), d.sp);
    }
  }

  /** A rewrite with AOF on whose system calls succeed leaves only its BASE and the INCR since the fork. */
  lemma RewriteStep(s: State, d: Done)
    requires Inv(s) && s.mode == On && s.child.AofChild? && s.backup != Snapshotting
    requires d.exitOk && d.renameBaseOk && d.p == Written && !s.gcDisabled && d.stuck == {}
    ensures Rewritten(s, s.child.snap, Step(s, ChildExit(d)))
  {
    hide Step, Inv, RewriteDone, Rewritten;
    ChildExitStep(s, d);
    RewriteTakesEffect(s, d);
  }

  lemma GcKeepsLists(s: State, stuck: set<FileName>, p: Persist)
    ensures var t := DelHistory(s, stuck, p); t.am.incr == s.am.incr && t.am.base == s.am.base && t.fd == s.fd
  {
    hide UnlinkedNames, StuckHistory, DiskAfter;
  }

  lemma FirstInstallLists(s: State, d: Done)
    requires s.child.AofChild? && s.mode == WaitRewrite && s.fd.Some? && TempIncrName in s.dir
    requires d.renameBaseOk && d.renameIncrOk && d.p == Written
    ensures var t, n := Install(s, d).0, s.am.incrSeq + 1;
            && t.am.incr == [Info(IncrName(n), n, IncrFile, d.offset, -1)]
            && t.am.base == Some(Info(BaseName(s.am.baseSeq + 1, d.rdb), s.am.baseSeq + 1, BaseFile, -1, -1))
  {
    hide AllAsHistory, DiskAfter;
  }

  /** After a first rewrite the files are its BASE and the INCR written meanwhile, which starts at the offset
      of the fork. */
  lemma FirstRewriteRecords(s: State, d: Done)
    requires Inv(s) && s.child.AofChild? && s.mode == WaitRewrite && s.backup != Snapshotting
    requires d.exitOk && d.renameBaseOk && d.renameIncrOk && d.p == Written
    ensures var t, n := Step(s, ChildExit(d)), s.am.incrSeq + 1;
            && t.am.incr == [Info(IncrName(n), n, IncrFile, d.offset, -1)]
            && t.am.base == Some(Info(BaseName(s.am.baseSeq + 1, d.rdb), s.am.baseSeq + 1, BaseFile, -1, -1))
  {
    FirstFd(s);
    hide Inv, Install, RewriteDone, DelHistory, Step;
    InstalledBase(s, d);
    FirstInstallLists(s, d);
    InstallFields(s, d);
    GcKeepsLists(Install(s, d).0, d.stuck, d.p2);
    ChildExitStep(s, d);
    RewriteDoneCases(s, d);
    GcBackup(Install(s, d).0, d.stuck, d.p2);
  }

  /** A first rewrite whose manifest cannot be written is undone: the files it renamed are gone, AOF goes on
      waiting, and the manifest is as it was. */
  lemma FirstRewriteUndone(s: State, d: Done)
    requires Inv(s) && s.child.AofChild? && s.mode == WaitRewrite && s.backup != Snapshotting
    requires d.exitOk && d.renameBaseOk && d.renameIncrOk && d.p == NotRenamed
    ensures var t := Step(s, ChildExit(d));
            && t.dir == s.dir - {BaseName(s.am.baseSeq + 1, d.rdb), IncrName(s.am.incrSeq + 1), TempIncrName}
            && t.mode == WaitRewrite && t.child == NoChild && t.am == s.am && t.disk == s.disk && t.buf == []
  {
    FirstFd(s);
    hide Inv, RewriteDone, Step, BackupFailed;
    ChildExitStep(s, d);
    RewriteDoneCases(s, d);
    InstalledBase(s, d);
    InstallUndone(s, d);
    InstallFields(s, d);
    hide Install;
  }

  lemma InstallUndone(s: State, d: Done)
    requires s.child.AofChild? && s.mode == WaitRewrite && TempIncrName in s.dir
    requires d.renameBaseOk && d.renameIncrOk && d.p == NotRenamed
    ensures var t := Install(s, d).0;
            && t.dir == s.dir - {BaseName(s.am.baseSeq + 1, d.rdb), IncrName(s.am.incrSeq + 1), TempIncrName}
            && t.am == s.am && t.disk == s.disk
  {
    hide AllAsHistory, MarkRewritten;
  }

  lemma FirstFd(s: State)
    requires Core(s) && s.mode == WaitRewrite && s.child.AofChild?
    ensures TempIncrName in s.dir && s.fd.Some?
  {
    hide Complete, Decoded, Tail, Live, FilesOk;
  }

  lemma GcBackup(s: State, stuck: set<FileName>, p: Persist)
    ensures DelHistory(s, stuck, p).backup == s.backup
  {
    hide UnlinkedNames, StuckHistory, DiskAfter;
  }

  // ---------------------------------------------------------------- settings

  /** CONFIG SET appendonly yes with AOF off: while another child runs AOF waits for it; otherwise a running
      rewrite is replaced by one of the whole history, and if that cannot start the setting is off again. */
  lemma SwitchOnIff(s: State, rw: Rewrite, sp: Stopping)
    requires s.mode == Off && s.backup !in {Snapshotting, Incrementing}
    ensures var t := Step(s, SetEnabled(true, rw, sp));
            && (s.child == OtherChild ==> t == s.(mode := WaitRewrite, enabled := true))
            && (s.child != OtherChild ==>
                  && (t.mode == WaitRewrite <==> rw.r.openOk && rw.forkOk) && (t.mode == WaitRewrite || t.mode == Off)
                  && t.enabled == (t.mode == WaitRewrite)
                  && t.child == (if t.mode == WaitRewrite then AofChild(s.hist) else NoChild)
                  && (t.mode == Off ==> NothingOpen(t)))
            && t.hist == s.hist && t.backup == s.backup
  {
    hide StartRewrite, StopAof;
    var s1 := KillAofChild(s.(enabled := true, mode := WaitRewrite));
    ForkIff(s1, rw);
    StartRewriteFields(s1, rw);
    if s.child != OtherChild && !StartRewrite(s1, rw).1 { GivenUp(s1, rw); }
  }

  /** CONFIG SET appendonly no with AOF on: AOF is off, its descriptor, buffer and rewrite are gone, and a
      backup in progress fails. Otherwise only the setting changes. */
  lemma SwitchOffIff(s: State, on: bool, rw: Rewrite, sp: Stopping)
    requires !on || s.mode != Off
    ensures var t := Step(s, SetEnabled(on, rw, sp));
            && (on || s.mode == Off ==> t == s.(enabled := on))
            && (!on && s.mode != Off ==>
                  && t.mode == Off && !t.enabled && t.fd == None && t.buf == [] && t.hist == s.hist
                  && t.child == (if s.child.AofChild? then NoChild else s.child)
                  && t.backup == if InProgress(s.backup) then Failed else s.backup)
  {
    var s1 := s.(enabled := on);
    if !on && s.mode != Off {
      StopFilesFields(s1, sp);
      StopChild(s1, sp);
      hide StopFiles, BackupFailed, StartAof;
      FailedFields(StopFiles(s1, sp), sp);
      assert StopAof(s1, sp) == BackupFailed(StopFiles(s1, sp), sp);
    }
  }

  lemma StopChild(s: State, sp: Stopping)
    ensures StopFiles(s, sp).child == if s.child.AofChild? then NoChild else s.child
  {
    hide Flush, UpdateEnd;
  }

  lemma FailedFields(s: State, sp: Stopping)
    requires s.mode == Off
    ensures var t := BackupFailed(s, sp);
            && t.mode == Off && t.enabled == s.enabled && t.fd == s.fd && t.buf == s.buf && t.hist == s.hist && t.child == s.child
            && t.backup == if InProgress(s.backup) then Failed else s.backup
  {
  }

  /** What switching AOF off records: the INCR in use ends at the replication offset. */
  lemma SwitchOffRecords(s: State, rw: Rewrite, sp: Stopping)
    requires s.mode == On && s.fd.Some? && s.am.incr != [] && !(InProgress(s.backup) && s.canRemove)
    ensures var t := Step(s, SetEnabled(false, rw, sp));
            && |t.am.incr| == |s.am.incr| && t.am.base == s.am.base
            && t.am.incr[|s.am.incr| - 1] == s.am.incr[|s.am.incr| - 1].(endOffset := sp.offset)
            && t.am.incr[..|s.am.incr| - 1] == s.am.incr[..|s.am.incr| - 1]
  {
    var s1 := s.(enabled := false);
    FlushFields(s1, sp.w);
    hide Flush;
    var f := StopFiles(s1, sp);
    assert f.am == Persisted(SetEndOffset(s.am, sp.offset), sp.p);
    assert f == s1.(data := f.data, disk := f.disk, am := f.am, fd := None, cur := NO_CURSOR, child := f.child, mode := Off,
                    buf := [], dir := f.dir);
    hide StopFiles;
    assert StopAof(s1, sp) == BackupFailed(f, sp);
    assert BackupFailed(f, sp).am == f.am;
  }

  /** Deleting history, when it is allowed: the entries whose files could not be unlinked stay, in order, the
      files of the others are gone, and nothing else is touched. */
  lemma GcIff(s: State, disabled: bool, stuck: set<FileName>, p: Persist)
    ensures var t := Step(s, SetGc(disabled, stuck, p));
            && t.gcDisabled == disabled && t.data == s.data && t.am.base == s.am.base && t.am.incr == s.am.incr
            && (forall n :: n in t.dir <==>
                  n in s.dir && (disabled || n in stuck || forall i :: 0 <= i < |s.am.hist| ==> s.am.hist[i].name != n))
            && (forall n :: n in t.dir ==> t.dir[n] == s.dir[n])
            && (disabled ==> t.am == s.am && t.disk == s.disk)
            && (!disabled ==> forall x :: x in t.am.hist <==> x in s.am.hist && x.name in stuck)
  {
    forall n: FileName
      ensures n in UnlinkedNames(s.am.hist, stuck) <==>
              n !in stuck && exists i :: 0 <= i < |s.am.hist| && s.am.hist[i].name == n
    {
      UnlinkedNamesMembers(s.am.hist, stuck, n);
    }
    forall x: AofInfo
      ensures x in StuckHistory(s.am.hist, stuck) <==> x in s.am.hist && x.name in stuck
    {
      StuckHistoryMembers(s.am.hist, stuck, x);
    }
    hide UnlinkedNames, StuckHistory, DiskAfter;
    var t := Step(s, SetGc(disabled, stuck, p));
    if !disabled && UnlinkedNames(s.am.hist, stuck) == {} {
      assert t.am == s.am;
      forall x | x in s.am.hist
        ensures x.name in stuck
      {
        assert x.name !in UnlinkedNames(s.am.hist, stuck);
      }
    }
  }

  // ---------------------------------------------------------------- ending a backup

  /** SEAL is ignored unless a backup counts commands; then it seals it exactly when fsync, link and manifest
      succeed and, if AOF goes on, the rotation, and otherwise the backup fails. */
  lemma SealStepIff(s: State, q: Sealing)
    requires Inv(s) && SealGuard(s, q)
    ensures var t := Step(s, SealBackup(q));
            && (s.backup != Incrementing ==> t == s)
            && (s.backup == Incrementing ==>
                  t.backup == if && q.fsyncOk && q.linkOk && s.am.incr != [] && s.am.incr[0].name !in s.bdir && q.manifestOk
                                 && (s.enabled ==> q.r.openOk && q.r.p == Written)
                              then Sealed else Failed)
  {
    hide Seal, Inv, SealGuard;
    if s.backup == Incrementing {
      SealIff(s, q);
      SealEnds(s, q);
    } else {
      SealIgnored(s, q);
    }
  }

  /** Its assertions: a BASE is pinned, it is still the BASE in use, and there is one INCR. */
  lemma SealAborts(s: State, q: Sealing)
    requires s.backup == Incrementing
    requires s.bBase == None || s.am.base == None || s.am.base.value.name != s.bBase.value || |s.am.incr| != 1
    ensures Step(s, SealBackup(q)) == s.(aborted := true)
  {
    hide Flush, UpdateEnd, BackupFailed, StopTempAof, OpenNewIncr;
  }

  lemma SealIgnored(s: State, q: Sealing)
    requires s.backup != Incrementing
    ensures Seal(s, q) == s
  {
  }

  lemma SealEnds(s: State, q: Sealing)
    requires Inv(s) && s.backup == Incrementing && SealGuard(s, q)
    ensures Seal(s, q).backup in {Sealed, Failed} && s.am.incr != []
  {
    hide Core, Flush, UpdateEnd, BackupFailed, StopTempAof, OpenNewIncr, Seal, SealGuard, WriteOk;
    SealGuarded(s, q);
    SealCases(s, q);
    var s1 := Flush(s, q.w);
    FlushFields(s, q.w);
    UpdateEndFields(s1, q.offset, q.p);
    var s2 := UpdateEnd(s1, q.offset, q.p);
    var s3 := PinIncr(s2, s.am.incr[0].name);
    FailedIs(s1, q.sp);
    FailedIs(s2, q.sp);
    FailedIs(s3, q.sp);
    OpenNewIncrFields(s3, q.r);
    FailedIs(OpenNewIncr(s3, q.r).0, q.sp);
    if !s.enabled { StopTempBackup(s3.(backup := Sealed, sealedHist := s.hist), q.sp); }
  }

  /** A backup sealed while AOF goes on: its INCR ends where the next one starts, at the offsets given, and is linked
      into the backup under its own name. */
  lemma SealRecords(s: State, q: Sealing)
    requires Inv(s) && SealGuard(s, q) && s.backup == Incrementing && s.enabled
    requires Step(s, SealBackup(q)).backup == Sealed
    ensures var t, n := Step(s, SealBackup(q)), s.am.incrSeq + 1;
            && |s.am.incr| == 1 && s.am.incr[0].name in s.dir
            && t.am.incr == [s.am.incr[0].(endOffset := q.offset), Info(IncrName(n), n, IncrFile, q.r.offset, -1)]
            && t.bIncr == Some(s.am.incr[0].name) && t.bdir == s.bdir[s.am.incr[0].name := s.dir[s.am.incr[0].name]]
            && t.sealedHist == s.hist && t.mode == On
  {
    hide Inv, Flush, BackupFailed, StopTempAof, Seal, SealGuard, WriteOk, Step, UpdateEnd, OpenNewIncr, SealAsserts;
    CountingIncr(s);
    SealStepIff(s, q);
    SealStep(s, q);
    SealCases(s, q);
    var s1, n := Flush(s, q.w), s.am.incr[0].name;
    FlushFields(s, q.w);
    EndRecorded(s1, q.offset, q.p);
    var s3 := PinIncr(UpdateEnd(s1, q.offset, q.p), n);
    RotatedList(s3, q.r);
    OpenNewIncrFields(s3, q.r);
  }

  lemma EndRecorded(s: State, offset: int, p: Persist)
    requires s.mode == On && |s.am.incr| == 1
    ensures var t := UpdateEnd(s, offset, p);
            && t == s.(disk := t.disk, am := t.am)
            && t.am.incr == [s.am.incr[0].(endOffset := offset)] && t.am.incrSeq == s.am.incrSeq
  {
    hide DiskAfter;
  }

  lemma CountingIncr(s: State)
    requires Inv(s) && s.backup == Incrementing
    ensures SealAsserts(s) && s.mode == On && |s.am.incr| == 1 && s.am.incr[0].name in s.dir
  {
    hide Complete, Decoded, Tail, Live, Frozen, WellFormed;
  }

  lemma SealStep(s: State, q: Sealing)
    ensures Step(s, SealBackup(q)) == Seal(s, q)
  {
    hide Seal;
  }

  lemma RotatedList(s: State, r: Rotate)
    requires s.mode == On && r.openOk && r.p == Written
    ensures var (t, ok) := OpenNewIncr(s, r);
            ok && t.am.incr == s.am.incr + [Info(IncrName(s.am.incrSeq + 1), s.am.incrSeq + 1, IncrFile, r.offset, -1)]
  {
    hide Open, DiskAfter;
  }

  /** BACKUP ABORT and every failure: a backup in progress fails, its directory is empty, AOF that ran only for
      it is off, and the append-only directory goes exactly when the backup owned it; otherwise nothing. */
  lemma AbortIff(s: State, sp: Stopping)
    ensures var t := Step(s, AbortBackup(sp));
            && (!InProgress(s.backup) ==> t == s)
            && (InProgress(s.backup) ==>
                  && t.backup == Failed && t.bdir == map[] && t.bBase == None && t.bIncr == None && !t.canRemove
                  && t.mode == (if s.enabled then s.mode else Off) && t.hist == s.hist
                  && (s.canRemove ==> t.dir == map[] && t.disk == None && t.am == EMPTY)
                  && (!s.canRemove && s.enabled ==> t.dir == s.dir && t.disk == s.disk && t.am == s.am))
  {
    hide StopTempAof;
    if InProgress(s.backup) {
      StopTempBackup(s.(backup := Failed), sp);
      StopTempMode(s.(backup := Failed), sp);
    }
  }

  lemma StopTempMode(s: State, sp: Stopping)
    requires !InProgress(s.backup)
    ensures var t := StopTempAof(s, sp); t.mode == (if s.enabled then s.mode else Off) && (s.enabled ==> t == s)
  {
    hide StopFiles;
    StopFilesFields(s, sp);
    if !s.enabled && s.mode != Off {
      assert StopAof(s, sp) == BackupFailed(StopFiles(s, sp), sp) == StopFiles(s, sp);
    }
  }

  /** BACKUP CLEANUP forgets a backup that is not in progress and empties its directory. */
  lemma CleanupIff(s: State)
    ensures var t := Step(s, CleanupBackup);
            if s.backup in {Pending, Snapshotting, Incrementing} then t == s
            else t.backup == Idle && t.bdir == map[] && t.bBase == None && t.bIncr == None && !t.canRemove &&
                 t == s.(backup := Idle, bdir := map[], bBase := None, bIncr := None, canRemove := false)
  {
  }

  /** Another child keeps rewrites and backups away while it runs. */
  lemma OtherChildren(s: State)
    ensures Step(s, OtherFork).child == if s.child == NoChild then OtherChild else s.child
    ensures Step(s, OtherExit).child == if s.child == OtherChild then NoChild else s.child
    ensures forall e :: e == OtherFork || e == OtherExit ==> Step(s, e) == s.(child := Step(s, e).child)
  {
  }

  // ---------------------------------------------------------------- crashes

  predicate NoBackup(s: State) {
    s.backup == Idle && s.bBase == None && s.bIncr == None && !s.canRemove
  }

  lemma ReloadedFiles(m: AofManifest, dir: map<FileName, Inode>, data: seq<Content>)
    ensures LoadAll(Reloaded(m), dir, data) == LoadAll(m, dir, data)
  {
    hide LoadLogs;
  }

  lemma StartedFields(s: State, rdb: bool, offset: int, stuck: set<FileName>, p: Persist)
    ensures var t := DelHistory(OpenOnStart(s, rdb, offset), stuck, p);
            && t.hist == s.hist && t.mode == s.mode && t.fd.Some? && t.buf == s.buf && t.child == s.child
            && t.backup == s.backup && t.bBase == s.bBase && t.bIncr == s.bIncr && t.canRemove == s.canRemove
            && t.enabled == s.enabled && t.aborted == s.aborted
  {
    OpenedFields(s, rdb, offset);
    hide OpenOnStart, DiskAfter, UnlinkedNames, StuckHistory;
  }

  lemma OpenedFields(s: State, rdb: bool, offset: int)
    ensures var t := OpenOnStart(s, rdb, offset);
            && t.fd.Some?
            && t == s.(data := t.data, dir := t.dir, disk := t.disk, am := t.am, fd := t.fd, cur := t.cur)
  {
    hide DiskAfter;
  }

  lemma CrashStep(s: State, r: Restarting)
    ensures Step(s, Crash(r)) == Restart(s, r)
  {
    hide Restart;
  }

  lemma RestartIs(s: State, r: Restarting)
    requires r.enabled && LoadAll(Rebooted(s, r).am, s.dir, Torn(s, r.torn)).Some?
    ensures var s0 := Rebooted(s, r);
            && Present(s0.am.incr, s0.dir, s0.data)
            && Restart(s, r) ==
               DelHistory(OpenOnStart(s0.(data := RecoverLast(s0.am, s0.dir, s0.data),
                                          hist := LoadAll(s0.am, s0.dir, s0.data).value, mode := On),
                                      r.rdb, r.offset), r.stuck, r.p)
  {
    LoadedPresent(Rebooted(s, r));
    hide LoadAll, Torn, DelHistory, OpenOnStart, RecoverLast, Present;
  }

  /** A crash at any byte of a write and a restart with AOF on: the server goes on with exactly the commands
      wholly written, an empty buffer, no child and no backup. */
  lemma RestartResumes(s: State, r: Restarting)
    requires Core(s) && s.mode == On && r.enabled && r.torn <= |s.buf|
    ensures s.fd.Some? && s.fd.value < |s.data| && s.data[s.fd.value].Log?
    ensures var t := Step(s, Crash(r));
            && Exactly(s.hist, t.hist, Leftover(s, r.torn), s.buf[r.torn..])
            && t.mode == On && t.enabled && t.fd.Some? && t.buf == [] && t.child == NoChild && NoBackup(t)
            && t.aborted == s.aborted
  {
    hide Core, LoadAll, Exactly, Leftover, Torn, DelHistory, OpenOnStart, RecoverLast, Restart, Present, Step, DiskManifest;
    CrashKeepsHistory(s, r.torn);
    var s0 := Rebooted(s, r);
    ReloadedFiles(DiskManifest(s), s.dir, Torn(s, r.torn));
    RestartIs(s, r);
    CrashStep(s, r);
    StartedFields(s0.(data := RecoverLast(s0.am, s0.dir, s0.data), hist := LoadAll(s0.am, s0.dir, s0.data).value, mode := On),
                  r.rdb, r.offset, r.stuck, r.p);
  }

  lemma LoadedPresent(s: State)
    requires LoadAll(s.am, s.dir, s.data).Some?
    ensures Present(s.am.incr, s.dir, s.data)
  {
    hide LoadLogs;
  }

  /** With AOF off the dataset is the one given from outside, and the files stay but for their history. */
  lemma RestartWithoutAof(s: State, r: Restarting)
    requires !r.enabled
    ensures var t := Step(s, Crash(r));
            && t.hist == r.rdbHist && t.mode == Off && !t.enabled && t.fd == None && t.buf == [] && t.child == NoChild
            && t.cur == NO_CURSOR && t.data == Torn(s, r.torn) && NoBackup(t)
            && t.am.base == DiskManifest(s).base && t.am.incr == DiskManifest(s).incr
  {
    hide Torn, UnlinkedNames, StuckHistory, DiskAfter;
  }

  lemma InstallingStep(s: State, d: Done, stage: Stage, r: Restarting)
    ensures Step(s, CrashInstalling(d, stage, r)) == if s.child.AofChild? then Restart(Interrupted(s, d, stage), r) else s
  {
    hide Restart, Interrupted;
  }

  lemma DeadIs(s: State, d: Done, stage: Stage, r: Restarting)
    requires s.child.AofChild?
    ensures var t := Interrupted(s, d, stage);
            && t.fd == None && t.aborted == s.aborted && Torn(t, r.torn) == t.data && Rebooted(t, r).aborted == t.aborted
  {
    hide Install;
    InstallFields(s, d.(renameBaseOk := true, renameIncrOk := true, p := Written));
  }

  /** The same for a crash at any stage of installing a rewrite, with AOF on or once the manifest of a first
      rewrite is written. */
  lemma RestartAfterInstalling(s: State, d: Done, stage: Stage, r: Restarting)
    requires Inv(s) && s.child.AofChild? && (s.mode == On || (s.mode == WaitRewrite && stage == ManifestWritten)) && r.enabled
    ensures s.fd.Some? && s.fd.value < |s.data| && s.data[s.fd.value].Log?
    ensures var t := Step(s, CrashInstalling(d, stage, r));
            && Exactly(s.hist, t.hist, Leftover(s, 0), s.buf)
            && t.mode == On && t.enabled && t.fd.Some? && t.buf == [] && t.child == NoChild && NoBackup(t)
            && t.aborted == s.aborted
  {
    hide Inv, LoadAll, Exactly, Leftover, Torn, DelHistory, OpenOnStart, RecoverLast, Restart, Present, Step, DiskManifest,
         Interrupted;
    InstallCrashKeepsHistory(s, d, stage);
    var t := Interrupted(s, d, stage);
    DeadIs(s, d, stage, r);
    var s0 := Rebooted(t, r);
    ReloadedFiles(DiskManifest(t), t.dir, t.data);
    RestartIs(t, r);
    InstallingStep(s, d, stage, r);
    StartedFields(s0.(data := RecoverLast(s0.am, s0.dir, s0.data), hist := LoadAll(s0.am, s0.dir, s0.data).value, mode := On),
                  r.rdb, r.offset, r.stuck, r.p);
  }

  /** Files that do not load are fatal with AOF on: nothing is opened or changed. */
  lemma RestartRefuses(s: State, r: Restarting)
    requires r.enabled && LoadAll(DiskManifest(s), s.dir, Torn(s, r.torn)) == None
    ensures var t := Step(s, Crash(r));
            && t.aborted && t.fd == None && t.mode == Off && t.dir == s.dir && t.disk == s.disk && t.data == Torn(s, r.torn)
  {
    ReloadedFiles(DiskManifest(s), s.dir, Torn(s, r.torn));
    hide LoadAll, Torn, DelHistory, OpenOnStart, RecoverLast;
  }
}
