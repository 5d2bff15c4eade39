/** BACKUP: what pinning, sealing and failing keep, in every interleaving with rewrites. */
module AofBackup {
  import opened Options
  import opened Resp
  import opened Manifest
  import opened AofLog
  import opened AofServer
  import opened AofInvariant
  import opened AofRewrite
  import AofFlush

  // ---------------------------------------------------------------- files nothing will write again

  /** A name already issued by the manifest. */
  predicate Issued(m: AofManifest, n: FileName) {
    match n
    case BaseName(k, _) => k <= m.baseSeq
    case IncrName(k) => k <= m.incrSeq
    case TempIncrName => false
  }

  /** No descriptor writes the file, and no name of it will be opened for writing again. */
  ghost predicate Frozen(s: State, i: Inode) {
    && s.fd != Some(i)
    && forall n :: n in s.dir && s.dir[n] == i ==> Issued(s.am, n)
  }

  ghost predicate KeepsFrozen(s: State, t: State) {
    forall i: Inode :: i < |s.data| && Frozen(s, i) ==> i < |t.data| && t.data[i] == s.data[i] && Frozen(t, i)
  }

  lemma KeepsFrozenTrans(s: State, t: State, u: State)
    requires KeepsFrozen(s, t) && KeepsFrozen(t, u)
    ensures KeepsFrozen(s, u)
  {
    hide Frozen;
  }

  lemma FlushFrozen(s: State, w: Write)
    ensures KeepsFrozen(s, Flush(s, w))
  {
    hide AofFlush.Put, AofFlush.Truncate, Descriptor;
  }

  lemma OpenNewIncrFrozen(s: State, r: Rotate)
    requires Indexed(s)
    ensures KeepsFrozen(s, OpenNewIncr(s, r).0)
  {
    hide Open, DiskAfter;
    var n := if s.mode == WaitRewrite then TempIncrName else IncrName(s.am.incrSeq + 1);
    OpenShape(s, n, true);
    OpenInode(s, n);
  }

  lemma OpenInode(s: State, n: FileName)
    requires Indexed(s)
    ensures var t := Open(s, n, true);
            n in t.dir && t.dir[n] == if n in s.dir then s.dir[n] else |s.data|
  {
  }

  lemma UpdateEndFrozen(s: State, offset: int, p: Persist)
    ensures KeepsFrozen(s, UpdateEnd(s, offset, p))
  {
  }

  lemma AbortWaitFrozen(s: State)
    ensures KeepsFrozen(s, AbortWait(s))
  {
  }

  lemma StartRewriteFrozen(s: State, rw: Rewrite)
    requires Core(s)
    ensures KeepsFrozen(s, StartRewrite(s, rw).0)
  {
    hide Frozen, Flush, OpenNewIncr, AbortWait, Coherent, Positioned;
    FlushCoherent(s, rw.w);
    var f := Flush(s, rw.w);
    CoherentIndexed(f);
    FlushFrozen(s, rw.w);
    OpenNewIncrFrozen(f, rw.r);
    var t := OpenNewIncr(f, rw.r).0;
    KeepsFrozenTrans(s, f, t);
    AbortWaitFrozen(t);
    KeepsFrozenTrans(s, t, AbortWait(t));
    SameFrozen(t, t.(child := AofChild(t.hist)));
  }

  lemma CoherentIndexed(s: State)
    requires Coherent(s)
    ensures Indexed(s)
  {
  }

  /** Freezing looks at the descriptor, the directory, the counters and the contents only. */
  lemma SameFrozen(s: State, t: State)
    requires t.fd == s.fd && t.dir == s.dir && t.am == s.am && t.data == s.data
    ensures KeepsFrozen(s, t)
    ensures forall i: Inode :: Frozen(s, i) <==> Frozen(t, i)
  {
  }

  lemma StopFilesFrozen(s: State, sp: Stopping)
    ensures KeepsFrozen(s, StopFiles(s, sp))
  {
    hide UpdateEnd, Flush;
    var f := Flush(s, sp.w);
    FlushFields(s, sp.w);
    UpdateEndFields(f, sp.offset, sp.p);
    FlushFrozen(s, sp.w);
    UpdateEndFrozen(f, sp.offset, sp.p);
    var u := UpdateEnd(f, sp.offset, sp.p);
    UpdateEndSeqs(f, sp.offset, sp.p);
  }

  lemma UpdateEndSeqs(s: State, offset: int, p: Persist)
    ensures var t := UpdateEnd(s, offset, p); t.am.baseSeq == s.am.baseSeq && t.am.incrSeq == s.am.incrSeq
  {
  }

  lemma DelHistoryFrozen(s: State, stuck: set<FileName>, p: Persist)
    ensures KeepsFrozen(s, DelHistory(s, stuck, p))
  {
    hide StuckHistory, UnlinkedNames;
  }

  lemma RemoveAofDirFrozen(s: State)
    ensures KeepsFrozen(s, RemoveAofDir(s))
  {
  }

  lemma InstallFrozen(s: State, d: Done)
    requires Indexed(s) && s.child.AofChild?
    ensures KeepsFrozen(s, Install(s, d).0)
  {
    hide NewBase, NewIncr, MarkRewritten;
    NewSeqs(s.am, d.rdb, d.offset);
    MarkedSeqs(NewBase(s.am, d.rdb), s.fd.Some?);
    MarkedSeqs(NewIncr(NewBase(s.am, d.rdb), d.offset), s.fd.Some?);
  }

  lemma MarkedSeqs(m: AofManifest, b: bool)
    ensures MarkRewritten(m, b).baseSeq == m.baseSeq && MarkRewritten(m, b).incrSeq == m.incrSeq
  {
  }

  // ---------------------------------------------------------------- the backup invariant

  /** The live BASE is the pinned one and exactly one INCR has grown since. */
  ghost predicate IncrementingOk(s: State) {
    && s.mode == On && !s.child.AofChild?
    && s.am.base.Some? && |s.am.incr| == 1
    && s.bBase == Some(s.am.base.value.name)
    && s.bBase.value in s.bdir && s.bBase.value in s.dir && s.bdir[s.bBase.value] == s.dir[s.bBase.value]
  }

  /** The pinned BASE and INCR hold exactly the history up to SEAL, for good. */
  ghost predicate SealedOk(s: State) {
    && s.bBase.Some? && s.bIncr.Some? && s.bBase.value in s.bdir && s.bIncr.value in s.bdir
    && var i := s.bdir[s.bBase.value];
       var j := s.bdir[s.bIncr.value];
       && i < |s.data| && j < |s.data| && s.data[i].Snapshot? && s.data[j].Log?
       && Complete(s.data[j].bytes)
       && s.sealedHist == s.data[i].cmds + Decoded(s.data[j].bytes)
       && Frozen(s, i) && Frozen(s, j)
  }

  ghost predicate BackupOk(s: State) {
    match s.backup
    case Snapshotting => s.child.AofChild? && s.mode != Off
    case Incrementing => IncrementingOk(s)
    case Sealed => SealedOk(s)
    case Idle => true
    case Pending => true
    case Failed => true
  }

  ghost predicate Inv(s: State) {
    Core(s) && Settings(s) && BackupOk(s)
  }

  lemma SealedKept(s: State, t: State)
    requires SealedOk(s) && KeepsFrozen(s, t)
    requires t.bdir == s.bdir && t.bBase == s.bBase && t.bIncr == s.bIncr && t.sealedHist == s.sealedHist
    ensures SealedOk(t)
  {
    hide Decoded, Complete, Frozen;
  }

  // ---------------------------------------------------------------- simple events

  lemma FeedInv(s: State, c: Command)
    requires Inv(s) && Valid(c)
    ensures Inv(Feed(s, c))
  {
    hide Core, SealedOk, Encode;
    FeedCore(s, c);
    var t := Feed(s, c);
    SameFrozen(s, t);
    if s.backup == Sealed { SealedKept(s, t); }
  }

  lemma FlushInv(s: State, w: Write)
    requires Inv(s) && WriteOk(s, w)
    ensures Inv(Flush(s, w))
  {
    hide Core, SealedOk, Flush;
    FlushCore(s, w);
    FlushFields(s, w);
    FlushFrozen(s, w);
    if s.backup == Sealed { SealedKept(s, Flush(s, w)); }
  }

  lemma GcInv(s: State, stuck: set<FileName>, p: Persist)
    requires Inv(s)
    ensures Inv(DelHistory(s, stuck, p))
  {
    hide Core, SealedOk, StuckHistory, UnlinkedNames, WellFormed;
    CoreParts(s);
    DelHistoryCore(s, stuck, p);
    DelHistoryFrozen(s, stuck, p);
    var t := DelHistory(s, stuck, p);
    if s.backup == Sealed { SealedKept(s, t); }
    if s.backup == Incrementing {
      var n := s.bBase.value;
      if n in UnlinkedNames(s.am.hist, stuck) { GoneIsRetired(s.am, stuck, n); }
    }
  }

  lemma StartRewriteInv(s: State, rw: Rewrite)
    requires Inv(s) && RewriteGuard(s, rw)
    ensures Inv(StartRewrite(s, rw).0)
  {
    hide Core, SealedOk, StartRewrite, Flush;
    StartRewriteCore(s, rw);
    StartRewriteFields(s, rw);
    StartRewriteFrozen(s, rw);
    var t := StartRewrite(s, rw).0;
    if s.backup == Sealed { SealedKept(s, t); }
  }

  lemma StartRewriteFields(s: State, rw: Rewrite)
    ensures var (t, ok) := StartRewrite(s, rw);
            && t.mode == s.mode && t.hist == s.hist && t.enabled == s.enabled && t.backup == s.backup
            && t.bdir == s.bdir && t.bBase == s.bBase && t.bIncr == s.bIncr && t.canRemove == s.canRemove
            && t.sealedHist == s.sealedHist && t.gcDisabled == s.gcDisabled
            && (s.child != NoChild || s.backup == Snapshotting || s.backup == Incrementing ==> t == s && !ok)
            && (ok ==> t.child.AofChild?)
            && (!ok ==> t.child == s.child)
  {
    hide Flush, OpenNewIncr, AbortWait;
    FlushFields(s, rw.w);
    OpenNewIncrFields(Flush(s, rw.w), rw.r);
    AbortWaitFields(OpenNewIncr(Flush(s, rw.w), rw.r).0);
  }

  lemma AbortWaitFields(s: State)
    ensures AbortWait(s) == s.(fd := AbortWait(s).fd, cur := AbortWait(s).cur, buf := AbortWait(s).buf, dir := AbortWait(s).dir)
  {
  }

  // ---------------------------------------------------------------- failing and stopping

  lemma BackupFailedInv(s: State, sp: Stopping)
    requires Core(s) && Settings(s) && (InProgress(s.backup) || BackupOk(s))
    ensures Inv(BackupFailed(s, sp))
  {
    hide Core, SealedOk, BackupFailed;
    BackupFailedCore(s, sp);
  }

  lemma StopAofInv(s: State, sp: Stopping)
    requires Core(s) && Settings(s) && s.mode != Off && !s.enabled && (InProgress(s.backup) || BackupOk(s))
    ensures Inv(StopAof(s, sp))
  {
    hide Core, SealedOk, StopFiles, BackupFailed;
    StopFilesCore(s, sp);
    StopFilesFields(s, sp);
    StopFilesFrozen(s, sp);
    var t := StopFiles(s, sp);
    if s.backup == Sealed { SealedKept(s, t); }
    BackupFailedInv(t, sp);
  }

  // ---------------------------------------------------------------- switching AOF on

  /** The rewrite startAppendOnly asks for, from a clean start. */
  lemma FirstRewrite(s: State, rw: Rewrite)
    requires Core(s) && s.mode == WaitRewrite && s.fd.None? && s.buf == [] && !s.child.AofChild?
    ensures var (t, ok) := StartRewrite(s, rw);
            && Core(t) && KeepsFrozen(s, t) && KeepsFrozen(s, t.(mode := Off))
            && (!ok ==> Core(t.(mode := Off)))
  {
    hide Core, StartRewrite, Frozen;
    StartRewriteCore(s, rw);
    StartRewriteFrozen(s, rw);
    var (t, ok) := StartRewrite(s, rw);
    SameFrozen(t, t.(mode := Off));
    KeepsFrozenTrans(s, t, t.(mode := Off));
    if !ok { BackToOff(s, rw); }
  }

  lemma StartAofCore(s: State, rw: Rewrite)
    requires Core(s) && s.mode == Off
    ensures var (t, ok) := StartAof(s, rw);
            && Core(t) && KeepsFrozen(s, t)
            && t.mode == (if ok then WaitRewrite else Off)
  {
    hide Core, StartRewrite, Frozen, KeepsFrozen;
    CoreParts(s);
    var s1 := s.(mode := WaitRewrite);
    var s2 := KillAofChild(s1);
    WaitCore(s, s2.child);
    SameFrozen(s, s1);
    if s.child != OtherChild {
      SameFrozen(s, s2);
      FirstRewrite(s2, rw);
      StartRewriteFields(s2, rw);
      var t := StartRewrite(s2, rw).0;
      KeepsFrozenTrans(s, s2, t);
      KeepsFrozenTrans(s, s2, t.(mode := Off));
    }
  }

  lemma WaitCore(s: State, child: Child)
    requires Core(s) && s.mode == Off && !child.AofChild?
    ensures Core(s.(mode := WaitRewrite, child := child))
  {
    hide FilesOk, WellFormed, DiskAgrees, Decoded, Complete;
  }

  /** A first rewrite that cannot start takes the descriptor, buffer and temporary file with it. */
  lemma BackToOff(s: State, rw: Rewrite)
    requires Core(s) && s.mode == WaitRewrite && s.fd.None? && !StartRewrite(s, rw).1
    requires Core(StartRewrite(s, rw).0) && !s.child.AofChild? && s.buf == []
    ensures Core(StartRewrite(s, rw).0.(mode := Off))
  {
    hide FilesOk, WellFormed, DiskAgrees, Decoded, Complete, Live, Indexed, OpenNewIncr, Flush, Core;
    var t := StartRewrite(s, rw).0;
    FlushFields(s, rw.w);
    OpenNewIncrFields(Flush(s, rw.w), rw.r);
    OffCore(t);
  }

  lemma OffCore(t: State)
    requires Core(t) && t.fd.None? && t.buf == []
    ensures Core(t.(mode := Off))
  {
    hide FilesOk, WellFormed, DiskAgrees, Decoded, Complete, Live;
  }

  lemma StartAofFields(s: State, rw: Rewrite)
    ensures var (t, ok) := StartAof(s, rw);
            && t.hist == s.hist && t.enabled == s.enabled && t.backup == s.backup
            && t.bdir == s.bdir && t.bBase == s.bBase && t.bIncr == s.bIncr && t.canRemove == s.canRemove
            && t.sealedHist == s.sealedHist
            && (ok && s.child != OtherChild ==> t.child.AofChild?)
            && t.mode == (if ok then WaitRewrite else Off)
  {
    hide StartRewrite;
    StartRewriteFields(KillAofChild(s.(mode := WaitRewrite)), rw);
  }

  /** CONFIG SET appendonly, except switching it on while a backup owns the directory. */
  lemma ChangeEnabledInv(s: State, on: bool, rw: Rewrite, sp: Stopping)
    requires Inv(s) && (on ==> !s.canRemove)
    ensures Inv(ChangeEnabled(s, on, rw, sp))
  {
    hide Core, SealedOk, StartAof, StopAof;
    var s1 := s.(enabled := on);
    CoreIgnores(s, s1);
    SameFrozen(s, s1);
    if s.backup == Sealed { SealedKept(s, s1); }
    if !on && s.mode != Off {
      StopAofInv(s1, sp);
    } else if on && s.mode == Off {
      StartAofCore(s1, rw);
      StartAofFields(s1, rw);
      var (t, ok) := StartAof(s1, rw);
      if s.backup == Sealed { SealedKept(s1, t); }
      if !ok {
        CoreIgnores(t, t.(enabled := false));
        SameFrozen(t, t.(enabled := false));
        if s.backup == Sealed { SealedKept(t, t.(enabled := false)); }
      }
    }
  }

  // ---------------------------------------------------------------- the end of a rewrite

  /** What the failing paths of backgroundRewriteDoneHandler leave, before BACKUP is told. */
  function GaveUp(s: State, s1: State): State {
    var s2 := s1.(child := NoChild);
    s2.(buf := if s.mode == WaitRewrite then [] else s2.buf,
        dir := if s.mode == WaitRewrite then s2.dir - {TempIncrName} else s2.dir)
  }

  lemma GaveUpCore(s: State, d: Done)
    requires Core(s) && s.child.AofChild? && (d.exitOk ==> !Install(s, d).1) && d.p != RenamedNotSynced
    ensures var s1 := if d.exitOk then Install(s, d).0 else s;
            var t := GaveUp(s, s1);
            && Core(t) && KeepsFrozen(s, t)
            && t == s.(child := NoChild, data := t.data, dir := t.dir, buf := t.buf)
  {
    hide Core, Install, Frozen;
    CoreParts(s);
    var s1 := if d.exitOk then Install(s, d).0 else s;
    if d.exitOk {
      InstallFails(s, d);
      InstallFrozen(s, d);
    } else {
      assert s.data[..|s.data|] == s.data;
    }
    TempNotListed(s.am);
    var t := GaveUp(s, s1);
    FailCore(s, t);
    ShrinkFrozen(s1, t);
    KeepsFrozenTrans(s, s1, t);
  }

  lemma ShrinkFrozen(s: State, t: State)
    requires t.fd == s.fd && t.am == s.am && t.data == s.data
    requires forall n :: n in t.dir ==> n in s.dir && t.dir[n] == s.dir[n]
    ensures KeepsFrozen(s, t)
  {
  }

  /** What a successful rewrite leaves, before BACKUP is told. */
  function Succeeded(s: State, d: Done): State
    requires s.child.AofChild?
  {
    DelHistory(Install(s, d).0, d.stuck, d.p2).(child := NoChild, mode := if s.mode == Off then Off else On)
  }

  lemma SucceededCore(s: State, d: Done)
    requires Core(s) && s.child.AofChild? && Install(s, d).1
    ensures var t := Succeeded(s, d);
            && Core(t) && KeepsFrozen(s, t)
            && t.am.base.Some? && (s.mode != Off ==> |t.am.incr| == 1)
            && t == s.(child := NoChild, data := t.data, dir := t.dir, disk := t.disk, am := t.am, mode := t.mode)
  {
    hide Core, Install, Frozen, StuckHistory, UnlinkedNames;
    CoreParts(s);
    InstallSucceeds(s, d);
    InstallFields(s, d);
    InstallFrozen(s, d);
    var f := Finished(s, d);
    SameFrozen(Install(s, d).0, f);
    KeepsFrozenTrans(s, Install(s, d).0, f);
    DelHistoryCore(f, d.stuck, d.p2);
    DelHistoryFrozen(f, d.stuck, d.p2);
    var t := Succeeded(s, d);
    assert t == DelHistory(f, d.stuck, d.p2);
    KeepsFrozenTrans(s, f, t);
  }

  lemma InstallFields(s: State, d: Done)
    requires s.child.AofChild?
    ensures var t := Install(s, d).0; t == s.(data := t.data, dir := t.dir, disk := t.disk, am := t.am)
  {
  }

  lemma RewriteDoneCases(s: State, d: Done)
    requires s.child.AofChild?
    ensures RewriteDone(s, d) ==
            if d.exitOk && Install(s, d).1 then SnapshotDone(Succeeded(s, d), d.linkOk, d.sp)
            else
              var t := GaveUp(s, if d.exitOk then Install(s, d).0 else s);
              if t.backup == Snapshotting then BackupFailed(t, d.sp) else t
  {
    hide Install, DelHistory, SnapshotDone, BackupFailed;
  }

  lemma SnapshotDoneInv(t: State, linkOk: bool, sp: Stopping)
    requires Core(t) && Settings(t) && t.am.base.Some?
    requires t.backup == Snapshotting ==> t.mode == On && t.child == NoChild && |t.am.incr| == 1
    requires t.backup != Snapshotting ==> BackupOk(t)
    ensures Inv(SnapshotDone(t, linkOk, sp))
  {
    hide Core, SealedOk, BackupFailed;
    if t.backup == Snapshotting {
      var n := t.am.base.value.name;
      if linkOk && n in t.dir && n !in t.bdir {
        CoreIgnores(t, SnapshotDone(t, linkOk, sp));
      } else {
        BackupFailedInv(t, sp);
      }
    }
  }

  /** backgroundRewriteDoneHandler, whatever fails in it short of a manifest renamed but not synced. */
  lemma RewriteDoneInv(s: State, d: Done)
    requires Inv(s) && d.p != RenamedNotSynced
    ensures Inv(RewriteDone(s, d))
  {
    hide Core, SealedOk, Install, DelHistory, SnapshotDone, BackupFailed, KeepsFrozen, RewriteDone, GaveUp, Succeeded;
    if s.child.AofChild? {
      RewriteDoneCases(s, d);
      if d.exitOk && Install(s, d).1 {
        SucceededCore(s, d);
        var t := Succeeded(s, d);
        if s.backup == Sealed { SealedKept(s, t); }
        SucceededMode(s, d);
        SnapshotDoneInv(t, d.linkOk, d.sp);
      } else {
        GaveUpCore(s, d);
        var t := GaveUp(s, if d.exitOk then Install(s, d).0 else s);
        if s.backup == Sealed { SealedKept(s, t); }
        BackupFailedInv(t, d.sp);
      }
    } else {
      RewriteDoneNone(s, d);
    }
  }

  lemma SucceededMode(s: State, d: Done)
    requires s.child.AofChild?
    ensures var t := Succeeded(s, d); t.mode == (if s.mode == Off then Off else On) && t.child == NoChild
  {
    hide Install, DelHistory;
  }

  lemma RewriteDoneNone(s: State, d: Done)
    requires !s.child.AofChild?
    ensures RewriteDone(s, d) == s
  {
    hide Install, DelHistory, SnapshotDone, BackupFailed;
  }

  // ---------------------------------------------------------------- starting a backup

  lemma StartPendingInv(s: State, scheduled: bool, rw: Rewrite, sp: Stopping)
    requires Inv(s) && RewriteGuard(s, rw)
    ensures Inv(StartPending(s, scheduled, rw, sp))
  {
    hide Core, SealedOk, StartAof, StartRewrite, BackupFailed, KeepsFrozen, Flush;
    if s.backup == Pending {
      if s.child.AofChild? {
        CoreIgnores(s, s.(backup := Snapshotting));
      } else if s.child == NoChild {
        var s0 := s.(canRemove := s.dir == map[] && s.disk.None? && !scheduled);
        CoreIgnores(s, s0);
        if s.mode == Off {
          StartAofCore(s0, rw);
          StartAofFields(s0, rw);
          PendingDone(StartAof(s0, rw).0, sp);
        } else {
          StartRewriteCore(s, rw);
          StartRewriteFields(s, rw);
          PendingDone(StartRewrite(s, rw).0, sp);
        }
      }
    }
  }

  lemma PendingDone(t: State, sp: Stopping)
    requires Core(t) && Settings(t) && t.backup == Pending
    ensures Inv(BackupFailed(t, sp))
    ensures t.child.AofChild? && t.mode != Off ==> Inv(t.(backup := Snapshotting))
  {
    hide Core, SealedOk, BackupFailed;
    BackupFailedInv(t, sp);
    CoreIgnores(t, t.(backup := Snapshotting));
  }

  lemma BackupStartInv(s: State, inExec: bool, scheduled: bool, rw: Rewrite, sp: Stopping)
    requires Inv(s) && RewriteGuard(s, rw)
    ensures Inv(BackupStart(s, inExec, scheduled, rw, sp))
  {
    hide Core, SealedOk, StartPending, Flush;
    if !InProgress(s.backup) && s.backup != Sealed && s.bdir == map[] {
      var s1 := s.(backup := Pending, bBase := None, bIncr := None, canRemove := false);
      CoreIgnores(s, s1);
      FlushSame(s, s1, rw.w);
      StartPendingInv(s1, scheduled, rw, sp);
    }
  }

  lemma FlushSame(s: State, t: State, w: Write)
    requires t.buf == s.buf && t.fd == s.fd
    ensures Flush(t, w).buf == Flush(s, w).buf
  {
    hide AofFlush.Put, AofFlush.Truncate, Descriptor;
  }

  lemma CleanupInv(s: State)
    requires Inv(s)
    ensures Inv(Cleanup(s))
  {
    hide Core, SealedOk;
    if !InProgress(s.backup) {
      CoreIgnores(s, Cleanup(s));
    }
  }

  // ---------------------------------------------------------------- sealing

  /** The live BASE, the single INCR and the buffer are the history. */
  lemma SingleTail(s: State)
    requires Core(s) && s.mode == On && |s.am.incr| == 1
    ensures s.am.base.Some?
    ensures var b := s.am.base.value.name;
            var n := s.am.incr[0].name;
            && b in s.dir && n in s.dir && b != n
            && s.dir[b] < |s.data| && s.dir[n] < |s.data| && s.data[s.dir[b]].Snapshot? && s.data[s.dir[n]].Log?
            && s.fd == Some(s.dir[n])
            && Complete(s.data[s.dir[n]].bytes + s.buf)
            && s.hist == s.data[s.dir[b]].cmds + Decoded(s.data[s.dir[n]].bytes + s.buf)
            && Issued(s.am, b) && Issued(s.am, n)
  {
    hide Decoded, Complete, Loadable;
    LiveLastIsFd(s);
    IncrNamesDistinct(s.am);
    var logs := Logs(s.am.incr, s.dir, s.data);
    assert logs[..|logs| - 1] == [];
    var bytes := s.data[s.fd.value].bytes + s.buf;
    var c := BaseCmds(s.am.base, s.dir, s.data);
    assert c + [] + Decoded(bytes) == c + Decoded(bytes);
  }

  /** Without the buffer once it is written. */
  lemma SingleIncr(s: State)
    requires Core(s) && s.mode == On && |s.am.incr| == 1 && s.buf == []
    ensures s.am.base.Some?
    ensures var b := s.am.base.value.name;
            var n := s.am.incr[0].name;
            && b in s.dir && n in s.dir && b != n
            && s.dir[b] < |s.data| && s.dir[n] < |s.data| && s.data[s.dir[b]].Snapshot? && s.data[s.dir[n]].Log?
            && s.fd == Some(s.dir[n])
            && Complete(s.data[s.dir[n]].bytes)
            && s.hist == s.data[s.dir[b]].cmds + Decoded(s.data[s.dir[n]].bytes)
            && Issued(s.am, b) && Issued(s.am, n)
  {
    hide Core, Decoded, Complete, Issued;
    SingleTail(s);
    var bytes := s.data[s.dir[s.am.incr[0].name]].bytes;
    assert bytes + [] == bytes;
  }

  /** The state with the INCR pinned beside the BASE. */
  function PinIncr(s: State, n: FileName): State {
    s.(bdir := if n in s.dir then s.bdir[n := s.dir[n]] else s.bdir, bIncr := Some(n))
  }

  /** Sealing by closing the descriptor. */
  lemma SealedByStop(s: State, sp: Stopping)
    requires Inv(s) && s.backup == Incrementing && s.buf == [] && !s.enabled
    ensures Inv(RemoveAofDir(StopTempAof(PinIncr(s, s.am.incr[0].name).(backup := Sealed, sealedHist := s.hist), sp)))
  {
    hide Core, StopFiles, StopTempAof, RemoveAofDir, Complete, Decoded, Frozen;
    var n := s.am.incr[0].name;
    var b := s.am.base.value.name;
    SingleIncr(s);
    var s3 := PinIncr(s, n).(backup := Sealed, sealedHist := s.hist);
    CoreIgnores(s, s3);
    StopTempAofCore(s3, sp);
    StopTempBackup(s3, sp);
    StopTempIsStop(s3, sp);
    var t := StopTempAof(s3, sp);
    StopFilesFields(s3, sp);
    CloseFreezes(s3, sp, s.dir[b], b);
    CloseFreezes(s3, sp, s.dir[n], n);
    RemoveAofDirCore(t);
    RemoveAofDirFrozen(t);
    RemoveAofDirFields(t);
    SealedKept(t, RemoveAofDir(t));
  }

  lemma RemoveAofDirFields(s: State)
    ensures var t := RemoveAofDir(s); t == s.(dir := t.dir, am := t.am, disk := t.disk)
  {
  }

  lemma StopTempIsStop(s: State, sp: Stopping)
    requires s.backup == Sealed && !s.enabled && s.mode != Off
    ensures StopTempAof(s, sp) == StopFiles(s, sp)
  {
    hide StopFiles;
    StopFilesFields(s, sp);
    assert StopAof(s, sp) == BackupFailed(StopFiles(s, sp), sp);
  }

  /** Closing the descriptor with an empty buffer freezes a listed file as it is. */
  lemma CloseFreezes(s: State, sp: Stopping, i: Inode, n: FileName)
    requires Core(s) && s.buf == [] && s.mode == On && n in s.dir && s.dir[n] == i && Issued(s.am, n)
    ensures var t := StopFiles(s, sp); t.data == s.data && Frozen(t, i)
  {
    hide Decoded, Complete, FilesOk, WellFormed, DiskAgrees, Live, UpdateEnd, Append, Flush, Positioned;
    var f := Flush(s, sp.w);
    FlushIs(s, sp.w);
    assert s.buf[..Flushed(s, sp.w)] == [];
    if s.fd.Some? { AppendNothing(s.data, s.fd.value); }
    UpdateEndFields(f, sp.offset, sp.p);
    UpdateEndSeqs(f, sp.offset, sp.p);
  }

  /** Sealing by rotating to a new INCR. */
  lemma SealedByRotation(s: State, r: Rotate)
    requires Inv(s) && s.backup == Incrementing && s.buf == [] && s.enabled && r.p != RenamedNotSynced
    ensures var (t, ok) := OpenNewIncr(PinIncr(s, s.am.incr[0].name), r);
            && Core(t) && Settings(t) && t.backup == Incrementing
            && (ok ==> Inv(t.(backup := Sealed, sealedHist := s.hist)))
  {
    hide Core, OpenNewIncr, Complete, Decoded, Frozen, Flush, Tail;
    var n := s.am.incr[0].name;
    var b := s.am.base.value.name;
    SingleIncr(s);
    var s3 := PinIncr(s, n);
    CoreIgnores(s, s3);
    OpenNewIncrCore(s3, r);
    OpenNewIncrFields(s3, r);
    var (t, ok) := OpenNewIncr(s3, r);
    if ok {
      var u := t.(backup := Sealed, sealedHist := s.hist);
      CoreIgnores(t, u);
      RotationFreezes(s3, r, b);
      RotationFreezes(s3, r, n);
      SameFrozen(t, u);
    }
  }

  lemma RotationFreezes(s: State, r: Rotate, n: FileName)
    requires Core(s) && s.mode == On && Issued(s.am, n) && n in s.dir && OpenNewIncr(s, r).1
    ensures var t := OpenNewIncr(s, r).0;
            var i := s.dir[n];
            i < |s.data| && i < |t.data| && t.data[i] == s.data[i] && Frozen(t, i)
  {
    hide Decoded, Complete, FilesOk, WellFormed, DiskAgrees, Live, Open, DiskAfter;
    var x := IncrName(s.am.incrSeq + 1);
    OpenShape(s, x, true);
    OpenInode(s, x);
  }

  lemma SealCases(s: State, q: Sealing)
    requires s.backup == Incrementing && SealAsserts(s)
    ensures var s1 := Flush(s, q.w);
            var s2 := UpdateEnd(s1, q.offset, q.p);
            var n := s.am.incr[0].name;
            var s3 := PinIncr(s2, n);
            Seal(s, q) ==
            if !q.fsyncOk then BackupFailed(s1, q.sp)
            else if !q.linkOk || n !in s2.dir || n in s2.bdir then BackupFailed(s2, q.sp)
            else if !q.manifestOk then BackupFailed(s3, q.sp)
            else if !s.enabled then RemoveAofDir(StopTempAof(s3.(backup := Sealed, sealedHist := s.hist), q.sp))
            else
              var (t, ok) := OpenNewIncr(s3, q.r);
              if ok then t.(backup := Sealed, sealedHist := s.hist) else BackupFailed(t, q.sp)
  {
    hide Flush, UpdateEnd, BackupFailed, RemoveAofDir, StopTempAof, OpenNewIncr;
  }

  lemma UpdateEndInv(s: State, offset: int, p: Persist)
    requires Inv(s) && s.backup == Incrementing
    ensures Inv(UpdateEnd(s, offset, p))
    ensures var t := UpdateEnd(s, offset, p); t.am.incr[0].name == s.am.incr[0].name
  {
    hide Core;
    UpdateEndCore(s, offset, p);
  }

  /** What SEAL relies on: its flush empties the buffer and, if the append-only file goes on, the
      write of its manifest is atomic. */
  predicate SealGuard(s: State, q: Sealing) {
    s.backup == Incrementing ==> Flush(s, q.w).buf == [] && (s.enabled ==> q.r.p != RenamedNotSynced)
  }

  lemma SealGuarded(s: State, q: Sealing)
    requires s.backup == Incrementing && SealGuard(s, q)
    ensures WriteOk(s, q.w) && Flush(s, q.w).buf == [] && (s.enabled ==> q.r.p != RenamedNotSynced)
  {
    hide Flush;
    EmptiedOk(s, q.w);
  }

  /** backupSealCommand: its assertions hold, and a sealed backup is the history so far. */
  lemma SealInv(s: State, q: Sealing)
    requires Inv(s) && SealGuard(s, q)
    ensures Inv(Seal(s, q))
  {
    hide Core, SealedOk, Flush, UpdateEnd, BackupFailed, RemoveAofDir, StopTempAof, OpenNewIncr, Seal, SealGuard, WriteOk;
    if s.backup != Incrementing {
      SealIgnored(s, q);
    } else {
      SealGuarded(s, q);
      SealCases(s, q);
      var s1 := Flush(s, q.w);
      FlushInv(s, q.w);
      FlushFields(s, q.w);
      UpdateEndInv(s1, q.offset, q.p);
      UpdateEndFields(s1, q.offset, q.p);
      var s2 := UpdateEnd(s1, q.offset, q.p);
      var n := s.am.incr[0].name;
      var s3 := PinIncr(s2, n);
      CoreIgnores(s2, s3);
      BackupFailedInv(s1, q.sp);
      BackupFailedInv(s2, q.sp);
      BackupFailedInv(s3, q.sp);
      if !s.enabled {
        SealedByStop(s2, q.sp);
      } else {
        SealedByRotation(s2, q.r);
        BackupFailedInv(OpenNewIncr(s3, q.r).0, q.sp);
      }
    }
  }

  lemma SealIgnored(s: State, q: Sealing)
    requires s.backup != Incrementing
    ensures Seal(s, q) == s
  {
    hide Flush, UpdateEnd, BackupFailed, RemoveAofDir, StopTempAof, OpenNewIncr;
  }
}
