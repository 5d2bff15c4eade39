/** Where the append-only file's guarantees stop: for each condition the steps rely on, the
    guarantee holds exactly when the condition does. */
module AofExact {
  import opened Options
  import opened Decimal
  import opened Resp
  import opened Manifest
  import opened AofLog
  import opened AofServer
  import opened AofInvariant
  import opened AofRewrite
  import opened AofBackup
  import opened AofSafety
  import opened AofTheorems
  import AofFlush

  /** In a state that satisfies the invariant the files load. */
  lemma InvLoads(s: State)
    requires Coherent(s)
    ensures LoadAll(DiskManifest(s), s.dir, s.data).Some?
  {
    hide LoadAll, FilesOk, WellFormed, Live, ChildOk, Loadable;
    SameFilesLoad(DiskManifest(s), s.am, s.dir, s.data);
    LoadOfFilesOk(s.am, s.dir, s.data);
  }

  /** With everything written they load to the history. */
  lemma InvLoadsHistory(s: State)
    requires Coherent(s) && s.mode == On && s.buf == []
    ensures LoadAll(DiskManifest(s), s.dir, s.data) == Some(s.hist)
  {
    hide LoadAll, Loadable, WellFormed, ChildOk, Flat, Positioned;
    SameFilesLoad(DiskManifest(s), s.am, s.dir, s.data);
    LoadOfFilesOk(s.am, s.dir, s.data);
    FullOfNothing(Logs(s.am.incr, s.dir, s.data));
  }

  // ---------------------------------------------------------------- an atomic manifest write

  /** A rewrite that has renamed its files leaves files that load if and only if the manifest
      write did not fail after its rename: then the new BASE, which the manifest on disk now
      lists, is unlinked. */
  lemma ManifestMustBeAtomic(s: State, d: Done)
    requires Inv(s) && s.child.AofChild? && s.backup != Snapshotting
    requires d.exitOk && d.renameBaseOk && (s.mode == WaitRewrite ==> d.renameIncrOk)
    ensures var t := RewriteDone(s, d);
            LoadAll(DiskManifest(t), t.dir, t.data).Some? <==> d.p != RenamedNotSynced
  {
    hide LoadAll, Core, BackupOk, RewriteDone, Install;
    var t := RewriteDone(s, d);
    if d.p != RenamedNotSynced {
      RewriteDoneInv(s, d);
      CoreCoherent(t);
      InvLoads(t);
    } else {
      RewriteDoneCases(s, d);
      if s.mode == WaitRewrite { WaitsForTemp(s); }
      LostBase(s, d);
      MissingBase(DiskManifest(t), t.dir, t.data);
    }
  }

  lemma CoreCoherent(s: State)
    requires Core(s)
    ensures Coherent(s)
  {
  }

  lemma WaitsForTemp(s: State)
    requires Core(s) && s.child.AofChild? && s.mode == WaitRewrite
    ensures TempIncrName in s.dir
  {
  }

  lemma LostBase(s: State, d: Done)
    requires s.child.AofChild? && d.renameBaseOk && d.p == RenamedNotSynced
    requires s.mode == WaitRewrite ==> d.renameIncrOk && TempIncrName in s.dir
    ensures var (t, ok) := Install(s, d);
            && !ok && t.backup == s.backup
            && var m := DiskManifest(t); m.base.Some? && m.base.value.name !in t.dir
  {
    hide MarkRewritten;
    var m := NewBase(s.am, d.rdb);
    MarkedDirty(s.am, d.rdb, d.offset);
    MarkedBaseIs(m, s.fd.Some?);
    MarkedBaseIs(NewIncr(m, d.offset), s.fd.Some?);
  }

  lemma MarkedBaseIs(m: AofManifest, b: bool)
    ensures MarkRewritten(m, b).base == m.base
  {
  }

  lemma MissingBase(m: AofManifest, dir: map<FileName, Inode>, data: seq<Content>)
    requires m.base.Some? && m.base.value.name !in dir
    ensures LoadAll(m, dir, data).None?
  {
  }

  // ---------------------------------------------------------------- an empty buffer at the fork

  lemma CutCompleteIffClean(b: seq<byte>)
    requires Cut(b)
    ensures Run(b).exit == CleanEof <==> Complete(b)
  {
    hide LoadFile, Whole, EncodeAll;
    var cs, k: nat :| IsCut(b, cs, k);
    CutRun(b, cs, k);
    if Complete(b) { CompleteRun(b); }
    if Run(b).exit == CleanEof {
      CompleteOf(cs[..Whole(cs, k)]);
      assert b[..k] == b;
    }
  }

  lemma {:induction false} LoadLogsOfMore(fs: seq<seq<byte>>, b: seq<byte>)
    requires Loadable(fs) && fs != [] && Run(b).exit == CleanEof
    ensures LoadLogs(fs + [b]).Some? <==> Complete(fs[|fs| - 1])
  {
    hide Decoded, Run, Complete, Cut;
    assert (fs + [b])[0] == fs[0] && (fs + [b])[1..] == fs[1..] + [b];
    if |fs| == 1 {
      CutCompleteIffClean(fs[0]);
      assert fs[1..] + [b] == [b];
    } else {
      assert fs[0] == fs[..|fs| - 1][0];
      CompleteRun(fs[0]);
      assert fs[1..][..|fs[1..]| - 1] == fs[..|fs| - 1][1..];
      LoadLogsOfMore(fs[1..], b);
    }
  }

  /** Rotating to a new INCR with bytes still in the buffer leaves files that load if and
      only if the old INCR happens to end between two commands. */
  lemma RotationNeedsWholeCommands(s: State, r: Rotate)
    requires Inv(s) && s.mode == On && r.openOk && r.p == Written
    ensures s.fd.Some? && s.fd.value < |s.data| && s.data[s.fd.value].Log?
    ensures var t := OpenNewIncr(s, r).0;
            LoadAll(DiskManifest(t), t.dir, t.data).Some? <==> Complete(s.data[s.fd.value].bytes)
  {
    hide Decoded, Complete, Flat, Loadable, WellFormed, Open, LoadLogs, Run, OpenNewIncr, BackupOk;
    LiveLastIsFd(s);
    OpenNewIncrWritten(s, r);
    var m := NewIncr(s.am, r.offset);
    var x := m.incr[|m.incr| - 1];
    var t := Rotated(s, r.offset);
    NewIncrWellFormed(s.am, r.offset);
    OpenFields(s, x.name, true);
    OpenShape(s, x.name, true);
    OpenFrame(s, x.name, true);
    var logs := Logs(s.am.incr, s.dir, s.data);
    LogsSnoc(s.am.incr, x, t.dir, t.data);
    EmptyLog();
    CompleteRun([]);
    LoadLogsOfMore(logs, []);
    assert DiskManifest(t).incr == s.am.incr + [x];
    assert BasePresent(DiskManifest(t).base, t.dir, t.data);
  }

  // ---------------------------------------------------------------- an atomic manifest write in a rotation

  /** What is left to write from command `n` on ends with the last command. */
  lemma LastCommandLeft(cs: seq<Command>, c: Command, n: nat)
    requires n <= |cs|
    ensures |EncodeAll((cs + [c])[n..])| >= |Encode(c)|
  {
    hide Encode;
    assert (cs + [c])[n..] == cs[n..] + [c];
    EncodeAllAppend(cs[n..], [c]);
    assert EncodeAll([c]) == Encode(c) + EncodeAll([]);
  }

  /** A proper part of a command is no whole command. */
  lemma PartIsNotWhole(b: seq<byte>, c: Command, k: nat)
    requires Complete(b) && Valid(c) && 0 < k < |Encode(c)|
    ensures !Complete(b + Encode(c)[..k])
  {
    hide LoadFile, Encode, Decoded, Run, Complete;
    CompleteExtend(b, c);
    var e := Encode(c);
    TornWrite(b, e, k);
    var t := b + e[..k];
    if Complete(t) {
      CompleteRun(t);
      if |Decoded(t)| <= |Decoded(b)| {
        LastCommandLeft(Decoded(b), c, |Decoded(t)|);
      }
    }
  }

  /** What loads when the last log that is written has an empty one behind it. */
  lemma UnsyncedLoads(s: State, x: AofInfo, m: AofManifest)
    requires Coherent(s) && s.mode == On && x.name in s.dir && s.dir[x.name] < |s.data| && s.data[s.dir[x.name]] == Log([])
    requires m.base == s.am.base && m.incr == s.am.incr + [x]
    ensures s.fd.Some? && s.fd.value < |s.data| && s.data[s.fd.value].Log?
    ensures LoadAll(m, s.dir, s.data).Some? <==> Complete(s.data[s.fd.value].bytes)
  {
    hide Decoded, Complete, Flat, Loadable, WellFormed, LoadLogs, Run, DiskAgrees, ChildOk;
    LiveLastIsFd(s);
    var logs := Logs(s.am.incr, s.dir, s.data);
    LogsSnoc(s.am.incr, x, s.dir, s.data);
    EmptyLog();
    CompleteRun([]);
    LoadLogsOfMore(logs, []);
  }

  /** Rotating with an empty buffer, then writing part of a command: the files load after a crash if
      and only if the manifest write did not fail after its rename. Then the manifest lists an empty
      INCR behind the one the server goes on writing, whose short read is fatal. */
  lemma RotationMustBeAtomic(s: State, r: Rotate, c: Command, k: nat)
    requires Core(s) && s.mode == On && s.buf == [] && !s.child.AofChild? && r.openOk
    requires Valid(c) && 0 < k < |Encode(c)|
    ensures var t := Feed(OpenNewIncr(s, r).0, c);
            k <= |t.buf| && (LoadAll(DiskManifest(t), t.dir, Torn(t, k)).Some? <==> r.p != RenamedNotSynced)
  {
    hide Core, LoadAll, OpenNewIncr, Encode, Torn, Valid, Complete, Live;
    CoreParts(s);
    OpenNewIncrFields(s, r);
    var o := OpenNewIncr(s, r).0;
    assert [] + Encode(c) == Encode(c);
    if r.p != RenamedNotSynced {
      OpenNewIncrCore(s, r);
      FeedCore(o, c);
      CoreParts(Feed(o, c));
      LiveFd(Feed(o, c));
      TornLoads(Feed(o, c), k);
    } else {
      NewIncrWellFormed(s.am, r.offset);
      OpenOnly(s, IncrName(s.am.incrSeq + 1));
      UnsyncedRotation(s, r);
      UnsyncedTorn(s, r.offset, c, k);
    }
  }

  lemma TornLoads(s: State, k: nat)
    requires Core(s) && k <= |s.buf| && s.fd.Some?
    ensures LoadAll(DiskManifest(s), s.dir, Torn(s, k)).Some?
  {
    hide Coherent, LoadAll, Torn, Positioned, Append;
    AppendedCoherent(s, k);
    TornIs(s, k);
    InvLoads(Appended(s, k));
  }

  lemma UnsyncedRotation(s: State, r: Rotate)
    requires s.mode == On && r.openOk && r.p == RenamedNotSynced
    ensures OpenNewIncr(s, r).0 ==
            Open(s, IncrName(s.am.incrSeq + 1), true).(disk := Some(NewIncr(s.am, r.offset).(dirty := false)))
  {
    hide Open;
    OpenFields(s, IncrName(s.am.incrSeq + 1), true);
  }

  /** The log being written, cut inside the command just fed, has an empty log behind it. */
  lemma UnsyncedFed(u: State, x: AofInfo, c: Command, k: nat)
    requires Core(u) && u.mode == On && u.buf == [] && Valid(c) && 0 < k < |Encode(c)|
    requires x.name in u.dir && !Listed(u.am, x.name) && u.data[u.dir[x.name]] == Log([])
    ensures var f := Feed(u, c);
            && f.buf == Encode(c) && Coherent(Appended(f, k)) && Torn(f, k) == Appended(f, k).data
            && f.fd.Some? && f.fd.value < |f.data| && f.data[f.fd.value].Log? && Appended(f, k).fd == f.fd
            && Appended(f, k).data[f.fd.value] == Log(f.data[f.fd.value].bytes + Encode(c)[..k])
            && !Complete(f.data[f.fd.value].bytes + Encode(c)[..k])
            && f.dir[x.name] < |f.data| && Appended(f, k).data[f.dir[x.name]] == Log([])
  {
    CoreParts(u);
    LiveLastIsFd(u);
    NewFileApart(u, x.name);
    hide Coherent, Encode, Torn, Positioned, Append, Valid, Complete, Live, FilesOk, WellFormed, DiskAgrees, ChildOk, Decoded;
    var f := Feed(u, c);
    FeedCore(u, c);
    assert [] + Encode(c) == Encode(c);
    AppendedCoherent(f, k);
    TornIs(f, k);
    AppendKind(f.data, f.fd.value, f.buf[..k]);
    AppendFacts(f.data, f.fd.value, f.buf[..k]);
    assert u.data[u.fd.value].bytes + [] == u.data[u.fd.value].bytes;
    PartIsNotWhole(u.data[u.fd.value].bytes, c, k);
  }

  lemma UnsyncedTorn(s: State, offset: int, c: Command, k: nat)
    requires Core(s) && s.mode == On && s.buf == [] && Valid(c) && 0 < k < |Encode(c)|
    requires Core(Open(s, IncrName(s.am.incrSeq + 1), true))
    ensures var m := NewIncr(s.am, offset).(dirty := false);
            var t := Feed(Open(s, IncrName(s.am.incrSeq + 1), true).(disk := Some(m)), c);
            k <= |t.buf| && LoadAll(DiskManifest(t), t.dir, Torn(t, k)).None?
  {
    hide Open, Core, LoadAll, Encode, Torn, Append, Valid, Complete, WellFormed, DiskAgrees, FilesOk, Live, ChildOk, Coherent;
    var n := IncrName(s.am.incrSeq + 1);
    var u := Open(s, n, true);
    CoreParts(s);
    OpenShape(s, n, true);
    OpenFields(s, n, true);
    NewIncrWellFormed(s.am, offset);
    var m := NewIncr(s.am, offset).(dirty := false);
    var x := m.incr[|s.am.incr|];
    UnsyncedFed(u, x, c, k);
    var f := Feed(u, c);
    AppendFacts(f.data, f.fd.value, f.buf[..k]);
    UnsyncedLoads(Appended(f, k), x, m);
    TornDisk(f, Some(m), k);
  }

  /** A file that is not listed is not the one being written. */
  lemma NewFileApart(s: State, n: FileName)
    requires Core(s) && s.mode == On && n in s.dir && !Listed(s.am, n)
    ensures s.fd.Some? && s.fd != Some(s.dir[n])
  {
    hide Decoded, Complete, Loadable, Flat, WellFormed, ChildOk;
    assert Listed(s.am, s.am.incr[|s.am.incr| - 1].name);
  }

  lemma TornDisk(s: State, disk: Option<AofManifest>, k: nat)
    ensures Torn(s.(disk := disk), k) == Torn(s, k)
  {
    hide AofFlush.Put;
  }

  /** The same for BGREWRITEAOF. */
  lemma RewriteMustBeAtomic(s: State, rw: Rewrite, c: Command, k: nat)
    requires Inv(s) && s.mode == On && s.child == NoChild && !InProgress(s.backup) && Flush(s, rw.w).buf == []
    requires rw.r.openOk && Valid(c) && 0 < k < |Encode(c)|
    ensures var t := Feed(StartRewrite(s, rw).0, c);
            k <= |t.buf| && (LoadAll(DiskManifest(t), t.dir, Torn(t, k)).Some? <==> rw.r.p != RenamedNotSynced)
  {
    hide Core, LoadAll, OpenNewIncr, Encode, Torn, Valid, Flush, BackupOk, WriteOk;
    EmptiedOk(s, rw.w);
    var f := Flush(s, rw.w);
    FlushCore(s, rw.w);
    FlushFields(s, rw.w);
    RotationMustBeAtomic(f, rw.r, c, k);
    OpenNewIncrFields(f, rw.r);
    TornChild(Feed(OpenNewIncr(f, rw.r).0, c), AofChild(f.hist), k);
  }

  /** And for BACKUP SEAL while the append-only file goes on. */
  lemma SealMustBeAtomic(s: State, q: Sealing, c: Command, k: nat)
    requires Inv(s) && s.backup == Incrementing && s.enabled && Flush(s, q.w).buf == []
    requires q.fsyncOk && q.linkOk && q.manifestOk && s.am.incr[0].name !in s.bdir
    requires q.r.openOk && Valid(c) && 0 < k < |Encode(c)|
    ensures var t := Feed(Seal(s, q), c);
            k <= |t.buf| && (LoadAll(DiskManifest(t), t.dir, Torn(t, k)).Some? <==> q.r.p != RenamedNotSynced)
  {
    hide Core, LoadAll, OpenNewIncr, Encode, Torn, Valid, Flush, WriteOk, Seal, UpdateEnd, BackupFailed, RemoveAofDir,
         StopTempAof, SealedOk;
    EmptiedOk(s, q.w);
    SealCases(s, q);
    var s1 := Flush(s, q.w);
    FlushInv(s, q.w);
    FlushFields(s, q.w);
    UpdateEndInv(s1, q.offset, q.p);
    UpdateEndFields(s1, q.offset, q.p);
    var s2 := UpdateEnd(s1, q.offset, q.p);
    var n := s.am.incr[0].name;
    var s3 := PinIncr(s2, n);
    CoreIgnores(s2, s3);
    assert n in s2.dir by { SingleIncr(s2); }
    RotationMustBeAtomic(s3, q.r, c, k);
    OpenNewIncrFields(s3, q.r);
    var o := OpenNewIncr(s3, q.r).0;
    FailedEnabled(o, q.sp);
    TornBackup(Feed(o, c), Feed(Seal(s, q), c), k);
  }

  /** A log cut short is worth the whole log if and only if nothing was cut off. */
  lemma CutIsLess(b: seq<byte>, buf: seq<byte>, k: nat)
    requires Complete(b + buf) && k <= |buf|
    ensures LoadLogs([b + buf[..k]]) == Some(Decoded(b + buf[..k]))
    ensures Decoded(b + buf[..k]) == Decoded(b + buf) <==> buf[k..] == []
  {
    hide Decoded, Complete, Run, Cut;
    TornWrite(b, buf, k);
    CutRecovers(b + buf[..k]);
    DecodedIs(b + buf[..k]);
    if buf[k..] == [] {
      assert buf[..k] == buf;
    } else if Decoded(b + buf[..k]) == Decoded(b + buf) {
      assert EncodeAll([]) == [];
    }
  }

  /** Through a descriptor about to be replaced, taking a short write back is as good as not writing. */
  lemma SealFlush(s: State, q: Sealing)
    requires Positioned(s) && s.backup == Incrementing && SealAsserts(s) && s.enabled
    requires q.fsyncOk && q.linkOk && q.manifestOk && s.am.incr[0].name !in s.bdir && s.am.incr[0].name in s.dir
    requires s.mode == On && q.r.openOk && q.r.p == Written
    ensures var w := Write(Flushed(s, q.w), false);
            WriteOk(s, w) && Flush(s, w).buf == Flush(s, q.w).buf && Seal(s, q) == Seal(s, q.(w := w))
  {
    hide Positioned, Flush, Append, UpdateEnd, BackupFailed, OpenNewIncr, Seal, RemoveAofDir, StopTempAof;
    var w := Write(Flushed(s, q.w), false);
    FlushIs(s, q.w);
    FlushIs(s, w);
    assert Flushed(s, w) == Flushed(s, q.w);
    UpdateEndOf(Flush(s, q.w), Flush(s, w), q.offset, q.p);
    UpdateEndFields(Flush(s, w), q.offset, q.p);
    SealCases(s, q);
    SealCases(s, q.(w := w));
    var n := s.am.incr[0].name;
    RotatesAlike(PinIncr(UpdateEnd(Flush(s, q.w), q.offset, q.p), n), PinIncr(UpdateEnd(Flush(s, w), q.offset, q.p), n), q.r);
  }

  lemma RotatesAlike(s: State, t: State, r: Rotate)
    requires t == s.(cur := t.cur) && s.mode == On && r.openOk && r.p == Written
    ensures OpenNewIncr(s, r) == OpenNewIncr(t, r) && OpenNewIncr(s, r).1
  {
  }

  /** What SEAL pins loads to the history if and only if its flush emptied the buffer. */
  lemma SealNeedsFlush(s: State, q: Sealing)
    requires Inv(s) && s.backup == Incrementing && s.enabled && s.am.incr[0].name !in s.bdir
    requires q.fsyncOk && q.linkOk && q.manifestOk && q.r.openOk && q.r.p == Written
    ensures var t := Seal(s, q);
            && t.backup == Sealed && t.hist == s.hist
            && (LoadBackup(t) == Some(s.hist) <==> Flush(s, q.w).buf == [])
  {
    hide Core, Flush, Seal, LoadBackup, SealedOk, Flushed, WriteOk;
    SingleTail(s);
    var w := Write(Flushed(s, q.w), false);
    assert Positioned(s) by { CoreParts(s); }
    SealFlush(s, q);
    SealNeedsWrite(s, q.(w := w));
  }

  lemma SealNeedsWrite(s: State, q: Sealing)
    requires Inv(s) && s.backup == Incrementing && s.enabled && s.am.incr[0].name !in s.bdir && WriteOk(s, q.w)
    requires q.fsyncOk && q.linkOk && q.manifestOk && q.r.openOk && q.r.p == Written
    ensures var t := Seal(s, q);
            && t.backup == Sealed && t.hist == s.hist
            && (LoadBackup(t) == Some(s.hist) <==> Flush(s, q.w).buf == [])
  {
    hide Core, OpenNewIncr, Flush, WriteOk, Seal, UpdateEnd, BackupFailed, RemoveAofDir, StopTempAof, SealedOk, Decoded,
         Complete, LoadLogs, Issued, Frozen;
    SealCases(s, q);
    SingleTail(s);
    var b, n := s.am.base.value.name, s.am.incr[0].name;
    var s1 := Flush(s, q.w);
    FlushInv(s, q.w);
    FlushFields(s, q.w);
    UpdateEndInv(s1, q.offset, q.p);
    UpdateEndFields(s1, q.offset, q.p);
    var s2 := UpdateEnd(s1, q.offset, q.p);
    SingleTail(s2);
    var s3 := PinIncr(s2, n);
    CoreIgnores(s2, s3);
    OpenNewIncrFields(s3, q.r);
    RotatesAlike(s3, s3, q.r);
    RotationFreezes(s3, q.r, b);
    RotationFreezes(s3, q.r, n);
    var bytes := s.data[s.dir[n]].bytes;
    var k := Flushed(s, q.w);
    FlushedBytes(s, q.w);
    CutIsLess(bytes, s.buf, k);
    var t, c := Seal(s, q), s.data[s.dir[b]].cmds;
    assert t.data[t.bdir[t.bBase.value]] == s.data[s.dir[b]];
    assert t.data[t.bdir[t.bIncr.value]] == Log(bytes + s.buf[..k]);
    assert LoadBackup(t) == Some(c + Decoded(bytes + s.buf[..k]));
    var x, y := Decoded(bytes + s.buf[..k]), Decoded(bytes + s.buf);
    assert (c + x)[|c|..] == x && (c + y)[|c|..] == y;
  }

  lemma FlushedBytes(s: State, w: Write)
    requires Core(s) && s.fd.Some? && s.fd.value < |s.data| && s.data[s.fd.value].Log?
    ensures var k := Flushed(s, w);
            && k <= |s.buf| && Flush(s, w).buf == s.buf[k..]
            && Flush(s, w).data == s.data[s.fd.value := Log(s.data[s.fd.value].bytes + s.buf[..k])]
  {
    hide Flush, Flushed, Positioned, Coherent;
    FlushIs(s, w);
  }

  /** With appendonly on, a failing backup only drops its own files. */
  lemma FailedEnabled(s: State, sp: Stopping)
    requires InProgress(s.backup) && s.enabled && !s.canRemove
    ensures BackupFailed(s, sp) == s.(backup := Failed, bdir := map[], bBase := None, bIncr := None)
  {
    assert StopTempAof(s.(backup := Failed), sp) == s.(backup := Failed);
  }

  lemma TornBackup(s: State, t: State, k: nat)
    requires t.data == s.data && t.fd == s.fd && t.cur == s.cur && t.buf == s.buf
    ensures Torn(t, k) == Torn(s, k)
  {
    hide AofFlush.Put;
  }

  lemma TornChild(s: State, child: Child, k: nat)
    ensures Torn(s.(child := child), k) == Torn(s, k)
  {
    hide AofFlush.Put;
  }

  lemma SplitComplete(a: seq<byte>, b: seq<byte>)
    requires Complete(a) && Complete(a + b)
    ensures Complete(b) && Decoded(a + b) == Decoded(a) + Decoded(b)
  {
    hide LoadFile, Whole, EncodeAll, Decoded;
    var cs := Decoded(a + b);
    CompleteRun(a + b);
    CompleteRun(a);
    assert a == (a + b)[..|a|];
    assert IsCut(a, cs, |a|);
    CutRun(a, cs, |a|);
    var n := Whole(cs, |a|);
    DecodedIs(a);
    assert (a + b)[|a|..] == b;
    assert a[|a|..] + b == b;
    CompleteOf(cs[n..]);
    assert cs == cs[..n] + cs[n..];
  }

  /** A rewrite forked while whole commands were still in the buffer. */
  function ForkedUnflushed(s: State, offset: int): State {
    Rotated(s, offset).(child := AofChild(s.hist))
  }

  /** The BASE is the snapshot and the only INCR is the one opened at the fork, still empty. */
  ghost predicate FreshPair(t: State, snap: seq<Command>) {
    && t.mode == On && t.am.base.Some? && |t.am.incr| == 1
    && var b := t.am.base.value.name;
       var n := t.am.incr[0].name;
       && b in t.dir && n in t.dir && t.dir[b] != t.dir[n] && t.dir[b] < |t.data| && t.dir[n] < |t.data|
       && t.data[t.dir[b]] == Snapshot(snap) && t.data[t.dir[n]] == Log([])
       && t.fd == Some(t.dir[n]) && t.cur == NO_CURSOR
       && SameFiles(DiskManifest(t), t.am)
  }

  lemma ForkedUnflushedPair(s: State, offset: int, d: Done)
    requires Coherent(s) && s.mode == On && d.renameBaseOk && d.p == Written
    ensures var t := ForkedUnflushed(s, offset);
            && Install(t, d).1
            && WellFormed(Finished(t, d).am) && DiskAgrees(Finished(t, d).disk, Finished(t, d).am)
            && FreshPair(Finished(t, d), s.hist)
  {
    hide Decoded, Complete, Flat, Loadable, WellFormed, Open, DiskAgrees, MarkRewritten, NewBase, Live, ChildOk;
    var m := NewIncr(s.am, offset);
    var x := m.incr[|m.incr| - 1];
    var t := ForkedUnflushed(s, offset);
    NewIncrWellFormed(s.am, offset);
    WellFormedDirty(m, false);
    OpenFields(s, x.name, true);
    OpenShape(s, x.name, true);
    InstalledManifest(t.am, d.rdb);
    InstallOk(t, d);
    InstallIsOn(t, d);
  }

  lemma InstallOk(s: State, d: Done)
    requires s.child.AofChild? && s.mode == On && d.renameBaseOk && d.p == Written
    ensures Install(s, d).1
  {
    hide MarkRewritten, NewBase, NewIncr;
  }

  lemma DelHistoryPair(t: State, snap: seq<Command>, stuck: set<FileName>, p: Persist)
    requires FreshPair(t, snap) && WellFormed(t.am) && DiskAgrees(t.disk, t.am)
    ensures FreshPair(DelHistory(t, stuck, p), snap)
  {
    hide UnlinkedNames, StuckHistory, WellFormed;
    var gone := if t.gcDisabled then {} else UnlinkedNames(t.am.hist, stuck);
    var b := t.am.base.value.name;
    var n := t.am.incr[0].name;
    if b in gone { GoneIsRetired(t.am, stuck, b); }
    if n in gone { GoneIsRetired(t.am, stuck, n); }
    var m := t.am.(hist := StuckHistory(t.am.hist, stuck), dirty := true);
    DropHistoryWellFormed(t.am, stuck);
    DiskAfterDrop(t.disk, t.am, m, p);
  }

  lemma FlushedPairLoads(t: State, snap: seq<Command>)
    requires FreshPair(t, snap) && Complete(t.buf)
    ensures var u := Flush(t, Write(|t.buf|, false));
            LoadAll(DiskManifest(u), u.dir, u.data) == Some(snap + Decoded(t.buf))
  {
    hide Decoded, Complete, Run, Flush;
    var u := Flush(t, Write(|t.buf|, false));
    FlushIs(t, Write(|t.buf|, false));
    assert t.buf[..|t.buf|] == t.buf && [] + t.buf == t.buf;
    SameFilesLoad(DiskManifest(u), u.am, u.dir, u.data);
    SingleLog(u.am.incr[0], u.dir, u.data);
    assert u.am.incr == [u.am.incr[0]];
    assert Logs(u.am.incr, u.dir, u.data) == [t.buf];
    CompleteRun(t.buf);
    DecodedIs(t.buf);
    assert LoadLogs([t.buf]) == Some(Decoded(t.buf));
  }

  lemma UnflushedCycle(s: State, offset: int, d: Done)
    requires Coherent(s) && s.mode == On && !InProgress(s.backup)
    requires d.exitOk && d.renameBaseOk && d.p == Written
    ensures var t := RewriteDone(ForkedUnflushed(s, offset), d);
            FreshPair(t, s.hist) && t.buf == s.buf && t.hist == s.hist
  {
    hide WellFormed, DiskAgrees, Coherent, FreshPair, RewriteDone, Install, DelHistory, Open, Succeeded;
    var t1 := ForkedUnflushed(s, offset);
    ForkedUnflushedPair(s, offset, d);
    RewriteDoneCases(t1, d);
    var f := Finished(t1, d);
    DelHistoryPair(f, s.hist, d.stuck, d.p2);
    InstallFields(t1, d);
    RotatedFields(s, offset);
    SucceededIsDelHistory(t1, d);
    DelHistoryMode(f, d.stuck, d.p2);
  }

  /** The INCR being written ends between two commands. */
  ghost predicate EndsWhole(s: State) {
    s.fd.Some? && s.fd.value < |s.data| && s.data[s.fd.value].Log? && Complete(s.data[s.fd.value].bytes)
  }

  /** Commands that the flush before a fork leaves in the buffer are in the snapshot and go to the
      new INCR as well: once the rewrite is installed and the buffer written, loading the files
      replays them twice. The history comes back if and only if the flush emptied the buffer.
      (If the flush ends inside a command, the files do not even load: RotationNeedsWholeCommands.) */
  lemma UnflushedCommandsReplayTwice(s: State, rw: Rewrite, d: Done)
    requires Inv(s) && s.mode == On && s.child == NoChild && !InProgress(s.backup)
    requires rw.r.openOk && rw.r.p == Written && rw.forkOk && EndsWhole(Flush(s, rw.w))
    requires d.exitOk && d.renameBaseOk && d.p == Written
    ensures var left := Flush(s, rw.w).buf;
            var t := RewriteDone(StartRewrite(s, rw).0, d);
            var u := Flush(t, Write(|t.buf|, false));
            && u.hist == s.hist
            && LoadAll(DiskManifest(u), u.dir, u.data) == Some(s.hist + Decoded(left))
            && (LoadAll(DiskManifest(u), u.dir, u.data) == Some(s.hist) <==> left == [])
  {
    hide *;
    InvCore(s);
    FlushCoherent(s, rw.w);
    FlushFields(s, rw.w);
    var f := Flush(s, rw.w);
    UnflushedBuffer(f);
    UnflushedStart(s, rw);
    UnflushedCycle(f, rw.r.offset, d);
    var t := RewriteDone(ForkedUnflushed(f, rw.r.offset), d);
    FlushedPairLoads(t, s.hist);
    FlushFields(t, Write(|t.buf|, false));
    assert |s.hist + Decoded(f.buf)| == |s.hist| + |Decoded(f.buf)| && s.hist + [] == s.hist;
  }

  lemma InvCore(s: State)
    requires Inv(s)
    ensures Core(s)
  {
  }

  lemma UnflushedBuffer(s: State)
    requires Coherent(s) && s.mode == On && EndsWhole(s)
    ensures Complete(s.buf) && (Decoded(s.buf) == [] <==> s.buf == [])
  {
    hide Decoded, Complete, WellFormed, Loadable, Flat;
    LiveLastIsFd(s);
    SplitComplete(s.data[s.fd.value].bytes, s.buf);
    CompleteRun(s.buf);
    EmptyLog();
  }

  lemma SucceededIsDelHistory(s: State, d: Done)
    requires s.child.AofChild?
    ensures Succeeded(s, d) == DelHistory(Finished(s, d), d.stuck, d.p2)
  {
    hide Install, StuckHistory, UnlinkedNames;
  }

  lemma RotatedFields(s: State, offset: int)
    ensures var t := Rotated(s, offset);
            t == s.(data := t.data, dir := t.dir, disk := t.disk, am := t.am, fd := t.fd, cur := t.cur)
  {
  }

  lemma UnflushedStart(s: State, rw: Rewrite)
    requires Coherent(Flush(s, rw.w)) && s.mode == On && s.child == NoChild && !InProgress(s.backup)
    requires rw.r.openOk && rw.r.p == Written && rw.forkOk
    ensures StartRewrite(s, rw).0 == ForkedUnflushed(Flush(s, rw.w), rw.r.offset)
  {
    hide Open, OpenNewIncr, Coherent, Flush;
    var f := Flush(s, rw.w);
    FlushFields(s, rw.w);
    CoherentIndexed(f);
    OpenNewIncrWritten(f, rw.r);
    RotatedFields(f, rw.r.offset);
  }

  // ---------------------------------------------------------------- a backup that owns the directory

  /** Switching appendonly on while a backup owns the directory, then aborting the backup,
      leaves a working append-only file if and only if the backup did not own it. */
  lemma EnablingDuringOwnedBackup(s: State, rw: Rewrite, sp: Stopping)
    requires Inv(s) && InProgress(s.backup) && s.mode == On
    ensures var t := BackupFailed(ChangeEnabled(s, true, rw, sp), sp);
            t.mode == On && t.hist == s.hist && (Live(t) <==> !s.canRemove)
  {
    hide Core, BackupOk, Live;
    var u := ChangeEnabled(s, true, rw, sp);
    assert u == s.(enabled := true);
    var t := BackupFailed(u, sp);
    if !s.canRemove {
      ChangeEnabledInv(s, true, rw, sp);
      AbortInv(u, sp);
      CoreParts(t);
    } else {
      assert StopTempAof(u.(backup := Failed), sp) == u.(backup := Failed);
      assert t.am == EMPTY;
      EmptyNotLive(t);
    }
  }

  lemma EmptyNotLive(t: State)
    requires t.am == EMPTY
    ensures !Live(t)
  {
  }

  // ---------------------------------------------------------------- a stale INCR

  /** A server that starts on a BASE alone takes the next INCR name and appends to whatever file has
      it. What the files load to is the BASE if and only if that file holds no command. */
  lemma StaleIncrReplayed(s: State, rdb: bool, offset: int)
    requires s.am.base.Some? && s.am.incr == [] && FilesOk(s.am, s.dir, s.data)
    requires s.hist == BaseCmds(s.am.base, s.dir, s.data)
    requires var n := IncrName(s.am.incrSeq + 1);
             n in s.dir && s.dir[n] < |s.data| && s.data[s.dir[n]].Log? && Cut(s.data[s.dir[n]].bytes)
    ensures var b := s.data[s.dir[IncrName(s.am.incrSeq + 1)]].bytes;
            var t := OpenOnStart(s, rdb, offset);
            && LoadAll(DiskManifest(t), t.dir, t.data) == Some(s.hist + Decoded(b))
            && (LoadAll(DiskManifest(t), t.dir, t.data) == Some(s.hist) <==> Decoded(b) == [])
  {
    hide Decoded, Complete, Cut, Run, LoadLogs;
    var t, n := OpenOnStart(s, rdb, offset), IncrName(s.am.incrSeq + 1);
    var b := s.data[s.dir[n]].bytes;
    assert t.dir == s.dir && t.data == s.data;
    var m := DiskManifest(t);
    assert m.base == s.am.base && |m.incr| == 1 && m.incr[0].name == n;
    assert Logs(m.incr, t.dir, t.data) == [b];
    LoadLogsOfLoadable([b]);
    FlatSnoc([], b);
    assert [] + [b] == [b] && Flat([]) + Decoded(b) == Decoded(b);
    if Decoded(b) == [] { assert s.hist + [] == s.hist; } else { assert |s.hist + Decoded(b)| > |s.hist|; }
  }
}
