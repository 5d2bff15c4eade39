/** The main results about the append-only file, and exactly when they hold. */
module AofTheorems {
  import opened Options
  import opened Decimal
  import opened Resp
  import opened Manifest
  import opened AofLog
  import opened AofServer
  import opened AofInvariant
  import opened AofBackup
  import opened AofSafety
  import opened AofInterrupt

  // ---------------------------------------------------------------- every run

  /** What the steps rely on. AofExact, AofHole and AofReuse say what becomes of the files without
      each condition; AofRuns has runs that lose data for want of one. */
  ghost predicate Guard(s: State, e: Event) {
    match e
    case Execute(c) => Valid(c)
    case BgRewrite(rw) => RewriteGuard(s, rw)
    case ChildExit(d) => d.p != RenamedNotSynced
    case SetEnabled(on, _, _) => on ==> !s.canRemove
    case StartBackup(_, _, rw, _) => RewriteGuard(s, rw)
    case BackupCron(_, rw, _) => RewriteGuard(s, rw)
    case SealBackup(q) => SealGuard(s, q)
    case Crash(r) => RestartGuard(s, r)
    case CrashInstalling(d, stage, r) => s.child.AofChild? ==> RestartGuard(Interrupted(s, d, stage), r)
    case FlushBuf(w) => WriteOk(s, w)
    case SetGc(_, _, _) => true
    case AbortBackup(_) => true
    case CleanupBackup => true
    case OtherFork => true
    case OtherExit => true
  }

  ghost predicate Guarded(s: State, es: seq<Event>)
    decreases |es|
  {
    es != [] ==> Guard(s, es[0]) && Guarded(Step(s, es[0]), es[1..])
  }

  lemma InitInv(hist: seq<Command>)
    ensures Inv(Init(hist))
  {
    var s := Init(hist);
    assert Logs(s.am.incr, s.dir, s.data) == [];
  }

  lemma ForkInv(s: State, child: Child)
    requires Inv(s) && !s.child.AofChild? && !child.AofChild?
    ensures Inv(s.(child := child))
  {
    hide Decoded, Complete, WellFormed, DiskAgrees, FilesOk, SealedOk;
    var t := s.(child := child);
    SameFrozen(s, t);
    if s.backup == Sealed { SealedKept(s, t); }
  }

  lemma SetGcInv(s: State, disabled: bool, stuck: set<FileName>, p: Persist)
    requires Inv(s)
    ensures Inv(DelHistory(s.(gcDisabled := disabled), stuck, p))
  {
    hide Core, SealedOk, DelHistory;
    var t := s.(gcDisabled := disabled);
    CoreIgnores(s, t);
    SameFrozen(s, t);
    if s.backup == Sealed { SealedKept(s, t); }
    GcInv(t, stuck, p);
  }

  /** Every step keeps the invariant. */
  lemma StepInv(s: State, e: Event)
    requires Inv(s) && Guard(s, e)
    ensures Inv(Step(s, e))
  {
    hide Inv, Feed, Flush, StartRewrite, RewriteDone, ChangeEnabled, DelHistory, BackupStart, StartPending, Seal,
         BackupFailed, Cleanup, Restart, Valid, RestartGuard, RewriteGuard, SealGuard, WriteOk,
         Interrupted;
    match e
    case Execute(c) => FeedInv(s, c);
    case FlushBuf(w) => FlushInv(s, w);
    case BgRewrite(rw) => StartRewriteInv(s, rw);
    case ChildExit(d) => RewriteDoneInv(s, d);
    case SetEnabled(on, rw, sp) => ChangeEnabledInv(s, on, rw, sp);
    case SetGc(disabled, stuck, p) => SetGcInv(s, disabled, stuck, p);
    case StartBackup(inExec, scheduled, rw, sp) => BackupStartInv(s, inExec, scheduled, rw, sp);
    case BackupCron(scheduled, rw, sp) => StartPendingInv(s, scheduled, rw, sp);
    case SealBackup(q) => SealInv(s, q);
    case AbortBackup(sp) => AbortInv(s, sp);
    case CleanupBackup => CleanupInv(s);
    case OtherFork => if s.child == NoChild { ForkInv(s, OtherChild); }
    case OtherExit => if s.child == OtherChild { ForkInv(s, NoChild); }
    case Crash(r) => RestartInv(s, r);
    case CrashInstalling(d, stage, r) => if s.child.AofChild? { InterruptedRestarts(s, d, stage, r); }
  }

  lemma AbortInv(s: State, sp: Stopping)
    requires Inv(s)
    ensures Inv(BackupFailed(s, sp))
  {
    hide Core, BackupOk, BackupFailed;
    BackupFailedInv(s, sp);
  }

  lemma {:induction false} RunInv(s: State, es: seq<Event>)
    requires Inv(s) && Guarded(s, es)
    ensures Inv(RunEvents(s, es))
    decreases |es|
  {
    hide Inv, Guard, Step;
    if es != [] {
      StepInv(s, es[0]);
      RunInv(Step(s, es[0]), es[1..]);
    }
  }

  // ---------------------------------------------------------------- what a crash finds

  lemma SameFilesLoad(p: AofManifest, m: AofManifest, dir: map<FileName, Inode>, data: seq<Content>)
    requires SameFiles(p, m)
    ensures LoadAll(p, dir, data) == LoadAll(m, dir, data)
  {
    hide LoadLogs;
    SameNamesSameLogs(p.incr, m.incr, dir, data);
  }

  /** The bytes a crash leaves in the last INCR after its last whole command. */
  ghost function Leftover(s: State, k: nat): seq<byte>
    requires s.fd.Some? && s.fd.value < |s.data| && s.data[s.fd.value].Log? && k <= |s.buf|
  {
    var t := s.data[s.fd.value].bytes + s.buf[..k];
    if Run(t).validUpTo <= |t| then t[Run(t).validUpTo..] else []
  }

  lemma ExactlyPrefix(h: seq<Command>, all: seq<Command>, done: seq<Command>, tail: seq<byte>, rest: seq<byte>)
    requires Exactly(all, done, tail, rest)
    ensures Exactly(h + all, h + done, tail, rest)
  {
    hide EncodeAll, Encode;
    assert (h + all)[|h + done|..] == all[|done|..];
  }

  /** In every reachable state with AOF on, a crash at any point of a write leaves files that
      load, and loading them yields exactly the commands wholly written: what is missing is
      just what was still in the buffer. */
  lemma CrashKeepsHistory(s: State, k: nat)
    requires Core(s) && s.mode == On && k <= |s.buf|
    ensures s.fd.Some? && s.fd.value < |s.data| && s.data[s.fd.value].Log?
    ensures var loaded := LoadAll(DiskManifest(s), s.dir, Torn(s, k));
            loaded.Some? && Exactly(s.hist, loaded.value, Leftover(s, k), s.buf[k..])
  {
    hide Decoded, Complete, WellFormed, Loadable, Run, Flat, Exactly, LoadAll;
    LiveLastIsFd(s);
    TornLoad(s, k);
    SameFilesLoad(DiskManifest(s), s.am, s.dir, Torn(s, k));
    var logs := Logs(s.am.incr, s.dir, s.data);
    var b := s.data[s.fd.value].bytes;
    TornWrite(b, s.buf, k);
    ExactlyPrefix(BaseCmds(s.am.base, s.dir, s.data) + Flat(logs[..|logs| - 1]), Decoded(b + s.buf), Decoded(b + s.buf[..k]),
                  Leftover(s, k), s.buf[k..]);
  }

  lemma TornLoad(s: State, k: nat)
    requires Core(s) && s.mode == On && k <= |s.buf| && Live(s) && s.fd.Some? && s.fd.value < |s.data| && s.data[s.fd.value].Log?
    ensures var logs := Logs(s.am.incr, s.dir, s.data);
            LoadAll(s.am, s.dir, Torn(s, k)) ==
            Some(BaseCmds(s.am.base, s.dir, s.data) + Flat(logs[..|logs| - 1]) + Decoded(s.data[s.fd.value].bytes + s.buf[..k]))
  {
    hide Decoded, Complete, WellFormed, Loadable, Run, Flat, DiskAgrees, LoadAll, Torn, Positioned;
    var t := Appended(s, k);
    TornIs(s, k);
    FlushLive(s, k);
    IncrNamesDistinct(s.am);
    LogsAppendLast(s.am.incr, s.dir, s.data, s.buf[..k]);
    var logs := Logs(s.am.incr, s.dir, s.data);
    FlatFull(logs, s.buf[..k]);
    LoadOfFilesOk(s.am, s.dir, t.data);
    var c := BaseCmds(s.am.base, s.dir, s.data);
    assert BaseCmds(s.am.base, s.dir, t.data) == c;
    var x := Flat(logs[..|logs| - 1]);
    var y := Decoded(s.data[s.fd.value].bytes + s.buf[..k]);
    assert c + (x + y) == c + x + y;
  }

  /** The same over whole runs, from a server that never had an append-only file. */
  lemma CrashSafety(hist: seq<Command>, es: seq<Event>, k: nat)
    requires Guarded(Init(hist), es)
    requires var s := RunEvents(Init(hist), es); s.mode == On && k <= |s.buf|
    ensures var s := RunEvents(Init(hist), es);
            && s.fd.Some? && s.fd.value < |s.data| && s.data[s.fd.value].Log?
            && var loaded := LoadAll(DiskManifest(s), s.dir, Torn(s, k));
               loaded.Some? && Exactly(s.hist, loaded.value, Leftover(s, k), s.buf[k..])
  {
    hide Core, BackupOk, LoadAll, Exactly, Leftover, Torn, RunEvents, Guarded;
    InitInv(hist);
    RunInv(Init(hist), es);
    CrashKeepsHistory(RunEvents(Init(hist), es), k);
  }

  /** In every reachable state, on or off, every file the manifest on disk lists as BASE or
      INCR exists, and no assertion has failed. */
  lemma ListedFilesExist(hist: seq<Command>, es: seq<Event>, n: FileName)
    requires Guarded(Init(hist), es)
    ensures var s := RunEvents(Init(hist), es);
            && !s.aborted
            && (Listed(DiskManifest(s), n) ==> n in s.dir && s.dir[n] < |s.data|)
  {
    hide BackupOk, RunEvents, Guarded, Live, ChildOk, WellFormed, Loadable;
    InitInv(hist);
    RunInv(Init(hist), es);
    var s := RunEvents(Init(hist), es);
    ListedPresent(s);
    if Listed(DiskManifest(s), n) { SameListed(DiskManifest(s), s.am, n); }
  }

  lemma SameListed(p: AofManifest, m: AofManifest, n: FileName)
    requires SameFiles(p, m) && Listed(p, n)
    ensures Listed(m, n)
  {
    if !(p.base.Some? && p.base.value.name == n) {
      var i :| 0 <= i < |p.incr| && p.incr[i].name == n;
      assert m.incr[i].name == n;
    }
  }

  /** The dataset a list of commands leads to, whatever commands do. */
  function Effect<D>(apply: (D, Command) -> D, d: D, cs: seq<Command>): D {
    if cs == [] then d else Effect(apply, apply(d, cs[0]), cs[1..])
  }

  /** Loading a BASE as a dataset and then executing the INCRs is the dataset of both. */
  lemma {:induction false} EffectOfReplay<D>(apply: (D, Command) -> D, d: D, base: seq<Command>, incr: seq<Command>)
    ensures Effect(apply, Effect(apply, d, base), incr) == Effect(apply, d, base + incr)
  {
    if base == [] {
      assert base + incr == incr;
    } else {
      assert (base + incr)[1..] == base[1..] + incr;
      EffectOfReplay(apply, apply(d, base[0]), base[1..], incr);
    }
  }

  // ---------------------------------------------------------------- backups

  /** Loading the backup directory on its own. */
  ghost function LoadBackup(s: State): Option<seq<Command>> {
    if s.bBase.None? || s.bIncr.None? || s.bBase.value !in s.bdir || s.bIncr.value !in s.bdir then None else
    var i := s.bdir[s.bBase.value];
    var j := s.bdir[s.bIncr.value];
    if i >= |s.data| || j >= |s.data| || !s.data[i].Snapshot? || !s.data[j].Log? then None else
    match LoadLogs([s.data[j].bytes])
    case None => None
    case Some(r) => Some(s.data[i].cmds + r)
  }

  /** A sealed backup loads to exactly the history up to SEAL. */
  lemma SealedBackupLoads(s: State)
    requires Inv(s) && s.backup == Sealed
    ensures LoadBackup(s) == Some(s.sealedHist)
  {
    hide Core, Decoded, Complete, Run;
    var j := s.bdir[s.bIncr.value];
    var b := s.data[j].bytes;
    CompleteRun(b);
    DecodedIs(b);
    assert LoadLogs([b]) == Some(Decoded(b));
  }

  /** SEAL records the history of that moment. */
  lemma SealRecordsHistory(s: State, q: Sealing)
    requires Inv(s) && Guard(s, SealBackup(q))
    ensures var t := Seal(s, q); t.backup == Sealed && s.backup != Sealed ==> t.sealedHist == s.hist
  {
    hide Core, SealedOk, Flush, UpdateEnd, BackupFailed, RemoveAofDir, StopTempAof, OpenNewIncr, Seal, SealGuard, WriteOk;
    if s.backup != Incrementing {
      SealIgnored(s, q);
    } else {
      SealGuarded(s, q);
      SealCases(s, q);
      var s1 := Flush(s, q.w);
      var s2 := UpdateEnd(s1, q.offset, q.p);
      var s3 := PinIncr(s2, s.am.incr[0].name);
      FlushInv(s, q.w);
      FlushFields(s, q.w);
      UpdateEndInv(s1, q.offset, q.p);
      UpdateEndFields(s1, q.offset, q.p);
      CoreIgnores(s2, s3);
      BackupFailedCore(s1, q.sp);
      BackupFailedCore(s2, q.sp);
      BackupFailedCore(s3, q.sp);
      StopTempBackup(s3.(backup := Sealed, sealedHist := s.hist), q.sp);
      RemoveAofDirFields(StopTempAof(s3.(backup := Sealed, sealedHist := s.hist), q.sp));
      if s.enabled {
        SealedByRotation(s2, q.r);
        BackupFailedCore(OpenNewIncr(s3, q.r).0, q.sp);
      }
    }
  }

  /** Once sealed, a backup keeps loading to the same history whatever else the server does,
      until it is cleaned up or the process dies. */
  lemma SealedBackupStays(s: State, e: Event)
    requires Inv(s) && Guard(s, e) && s.backup == Sealed && !e.CleanupBackup? && !IsCrash(e)
    ensures var t := Step(s, e); t.backup == Sealed && t.sealedHist == s.sealedHist && LoadBackup(t) == LoadBackup(s)
  {
    hide Inv, LoadBackup, Guard, Step;
    StepInv(s, e);
    SealedFields(s, e);
    SealedBackupLoads(s);
    SealedBackupLoads(Step(s, e));
  }

  lemma SealedFields(s: State, e: Event)
    requires s.backup == Sealed && !e.CleanupBackup? && !IsCrash(e)
    ensures var t := Step(s, e); t.backup == Sealed && t.sealedHist == s.sealedHist
  {
    hide Flush, StartRewrite, ChangeEnabled, DelHistory, Install, GaveUp, Succeeded, RewriteDone;
    match e
    case BgRewrite(rw) => StartRewriteFields(s, rw);
    case FlushBuf(w) => FlushFields(s, w);
    case ChildExit(d) => SealedChildExit(s, d);
    case SetEnabled(on, rw, sp) => SealedEnabled(s, on, rw, sp);
    case SetGc(disabled, stuck, p) => DelHistoryMode(s.(gcDisabled := disabled), stuck, p);
    case _ =>
  }

  lemma SealedEnabled(s: State, on: bool, rw: Rewrite, sp: Stopping)
    requires s.backup == Sealed
    ensures var t := ChangeEnabled(s, on, rw, sp); t.backup == Sealed && t.sealedHist == s.sealedHist
  {
    hide StartAof, StopFiles, StopAof;
    StopFilesFields(s.(enabled := on), sp);
    if s.mode != Off { StopSealed(s.(enabled := on), sp); }
    StartAofFields(s.(enabled := on), rw);
  }

  lemma StopSealed(s: State, sp: Stopping)
    requires s.backup == Sealed && s.mode != Off
    ensures StopAof(s, sp) == StopFiles(s, sp)
  {
    hide StopFiles;
    StopFilesFields(s, sp);
  }

  lemma SealedChildExit(s: State, d: Done)
    requires s.backup == Sealed
    ensures var t := RewriteDone(s, d); t.backup == Sealed && t.sealedHist == s.sealedHist
  {
    hide DelHistory, Install, RewriteDone, BackupFailed;
    if s.child.AofChild? {
      RewriteDoneCases(s, d);
      InstallFields(s, d);
      DelHistoryMode(Install(s, d).0, d.stuck, d.p2);
    } else {
      RewriteDoneNone(s, d);
    }
  }

  /** While a backup is incrementing, the assertions of BACKUP SEAL hold. */
  lemma SealAssertionsHold(s: State)
    requires Inv(s) && s.backup == Incrementing
    ensures SealAsserts(s) && s.mode == On && s.bdir[s.bBase.value] == s.dir[s.am.base.value.name]
  {
    hide Core;
  }
}
