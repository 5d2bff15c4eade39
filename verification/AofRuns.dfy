/** Runs from a fresh server that reach each of the losses. */
module AofRuns {
  import opened Options
  import opened Resp
  import opened Manifest
  import opened AofLog
  import opened AofServer
  import opened AofInvariant
  import opened AofRewrite
  import opened AofBackup
  import opened AofSafety
  import opened AofTheorems
  import opened AofExact
  import opened AofProgress
  import opened AofHole
  import opened AofReuse
  import opened AofInstallCrash
  import opened FlushRefinement
  import AofFlush

  // ---------------------------------------------------------------- calls in which nothing fails

  const ROTATE: Rotate := Rotate(true, Written, 0)
  const REWRITE: Rewrite := Rewrite(Write(0, false), ROTATE, true)
  const STOP: Stopping := Stopping(Write(0, false), 0, Written)
  const DONE: Done := Done(true, true, true, true, 0, Written, {}, Written, true, STOP)

  const BASE_1: FileName := BaseName(1, true)
  const INCR_1: FileName := IncrName(1)

  // ---------------------------------------------------------------- switching AOF on

  const ENABLE: seq<Event> := [SetEnabled(true, REWRITE, STOP), ChildExit(DONE)]

  function Awaiting(): State {
    Init([]).(dir := map[TempIncrName := 0], data := [Log([])], mode := WaitRewrite, enabled := true, fd := Some(0),
              child := AofChild([]))
  }

  const FIRST: AofManifest :=
    Manifest(Some(Info(BASE_1, 1, BaseFile, -1, -1)), [], [Info(INCR_1, 1, IncrFile, 0, -1)], 1, 1, false)

  /** The server with AOF on and nothing executed. */
  function Enabled(): State {
    Init([]).(dir := map[BASE_1 := 1, INCR_1 := 0], data := [Log([]), Snapshot([])], disk := Some(FIRST), am := FIRST,
              mode := On, enabled := true, fd := Some(0))
  }

  lemma EnableStarts()
    ensures Step(Init([]), SetEnabled(true, REWRITE, STOP)) == Awaiting()
  {
    hide RewriteDone, Seal, DelHistory, BackupStart, StartPending, Restart, Interrupted, StopAof;
    var s := Init([]).(enabled := true, mode := WaitRewrite);
    assert Open(s, TempIncrName, true) == s.(dir := map[TempIncrName := 0], data := [Log([])]);
    assert OpenNewIncr(s, ROTATE) == (s.(dir := map[TempIncrName := 0], data := [Log([])], fd := Some(0)), true);
  }

  lemma FirstManifestIs()
    ensures MarkRewritten(NewIncr(NewBase(EMPTY, true), 0), true) == FIRST.(dirty := true)
  {
    var m := NewIncr(NewBase(EMPTY, true), 0);
    assert m.incr == [Info(INCR_1, 1, IncrFile, 0, -1)];
    assert m.incr[0..] == m.incr && m.incr[..0] == [];
  }

  /** The first rewrite installed. */
  function FirstInstalled(s: State): State {
    s.(dir := map[BASE_1 := 1, INCR_1 := 0], data := [Log([]), Snapshot([])], disk := Some(FIRST), am := FIRST)
  }

  lemma FirstInstall(s: State)
    requires s.am == EMPTY && s.mode == WaitRewrite && s.dir == map[TempIncrName := 0] && s.data == [Log([])]
    requires s.fd == Some(0) && s.child == AofChild([])
    ensures Install(s, DONE) == (FirstInstalled(s), true)
    ensures Succeeded(s, DONE) == FirstInstalled(s).(child := NoChild, mode := On)
  {
    FirstManifestIs();
    hide MarkRewritten, NewIncr, NewBase;
    NewSeqs(EMPTY, true, 0);
    var t := Install(s, DONE).0;
    assert t.dir == map[BASE_1 := 1, INCR_1 := 0];
    assert t.data == [Log([]), Snapshot([])];
    NoHistory(FirstInstalled(s), Written);
    hide Install, DelHistory;
  }

  lemma NoHistory(s: State, p: Persist)
    requires s.am.hist == []
    ensures DelHistory(s, {}, p) == s
  {
    assert s.dir - {} == s.dir;
  }

  lemma EnableEnds()
    ensures Step(Awaiting(), ChildExit(DONE)) == Enabled()
  {
    hide Install, Succeeded, BackupFailed, RewriteDone;
    FirstInstall(Awaiting());
    RewriteDoneCases(Awaiting(), DONE);
  }

  lemma {:induction false} RunMore(s: State, a: seq<Event>, b: seq<Event>)
    ensures RunEvents(s, a + b) == RunEvents(RunEvents(s, a), b)
    decreases |a|
  {
    hide Step;
    if a == [] {
      assert a + b == b;
    } else {
      assert (a + b)[1..] == a[1..] + b;
      RunMore(Step(s, a[0]), a[1..], b);
    }
  }

  lemma RunOne(s: State, e: Event, es: seq<Event>)
    ensures RunEvents(s, [e] + es) == RunEvents(Step(s, e), es)
  {
    hide Step;
    assert ([e] + es)[1..] == es;
  }

  lemma RunNone(s: State)
    ensures RunEvents(s, []) == s
  {
  }

  lemma EnabledInv()
    ensures Inv(Enabled())
  {
    EnableStarts();
    EnableEnds();
    InitInv([]);
    hide Step, Inv;
    StepInv(Init([]), SetEnabled(true, REWRITE, STOP));
    StepInv(Awaiting(), ChildExit(DONE));
  }

  /** What a run does after AOF was switched on. */
  lemma AfterEnable(es: seq<Event>)
    ensures RunEvents(Init([]), ENABLE + es) == RunEvents(Enabled(), es)
  {
    EnableStarts();
    EnableEnds();
    hide Step, RunEvents;
    var e1, e2 := SetEnabled(true, REWRITE, STOP), ChildExit(DONE);
    assert ENABLE == [e1] + ([e2] + []);
    RunMore(Init([]), ENABLE, es);
    RunOne(Init([]), e1, [e2] + []);
    RunOne(Awaiting(), e2, []);
    RunNone(Enabled());
  }

  // ---------------------------------------------------------------- one command in the buffer

  function Fed(c: Command): State {
    Enabled().(hist := [c], buf := Encode(c))
  }

  lemma FedInv(c: Command)
    requires Valid(c)
    ensures Step(Enabled(), Execute(c)) == Fed(c) && Inv(Fed(c)) && EndsWhole(Fed(c)) && |Encode(c)| > 1
  {
    EnabledInv();
    hide Inv, Encode, Valid;
    StepInv(Enabled(), Execute(c));
    assert [] + [c] == [c] && [] + Encode(c) == Encode(c);
    EmptyLog();
    EncodeLong(c);
  }

  lemma EncodeLong(c: Command)
    ensures |Encode(c)| > 1
  {
  }

  /** A short write is taken back from the INCR opened by the first rewrite, and the next write leaves
      a hole: the file does not load. */
  lemma HoleRun(c: Command)
    requires Valid(c)
    ensures var s := RunEvents(Init([]), ENABLE + ([Execute(c)] + ([FlushBuf(Write(1, true))] +
                                                   ([FlushBuf(Write(|Encode(c)|, false))] + []))));
            s.mode == On && s.hist == [c] && s.buf == [] && LoadAll(DiskManifest(s), s.dir, s.data) == None
  {
    hide Inv, Encode, Valid, LoadAll, RunEvents, Flush, EndsWhole, Complete, HoleHidden;
    FedInv(c);
    EmptyLog();
    var s1 := Fed(c);
    HoleIff(s1, Write(1, true));
    var w, all := Write(1, true), Write(|Encode(c)|, false);
    FlushFields(s1, w);
    var s2 := Flush(s1, w);
    FlushFields(s2, all);
    UndoneKeeps(s1, w);
    AfterEnable([Execute(c)] + ([FlushBuf(w)] + ([FlushBuf(all)] + [])));
    RunOne(Enabled(), Execute(c), [FlushBuf(w)] + ([FlushBuf(all)] + []));
    RunOne(s1, FlushBuf(w), [FlushBuf(all)] + []);
    RunOne(s2, FlushBuf(all), []);
    RunNone(Flush(s2, all));
  }

  lemma UndoneKeeps(s: State, w: Write)
    requires Undone(s, w)
    ensures Flush(s, w).buf == s.buf
  {
    hide AofFlush.Put, AofFlush.Truncate;
    assert s.buf[0..] == s.buf;
  }

  /** The flush before a fork writes one byte of the command: the old INCR does not load any more. */
  lemma PartialRotationRun(c: Command)
    requires Valid(c)
    ensures var rw := REWRITE.(w := Write(1, false));
            var s := RunEvents(Init([]), ENABLE + ([Execute(c)] + ([BgRewrite(rw)] + [])));
            s.mode == On && s.hist == [c] && LoadAll(DiskManifest(s), s.dir, s.data) == None
  {
    hide Inv, Encode, Valid, LoadAll, RunEvents, Flush, Complete, StartRewrite, OpenNewIncr, EndsWhole, WriteOk;
    FedInv(c);
    var s1, rw := Fed(c), REWRITE.(w := Write(1, false));
    var f := Flush(s1, rw.w);
    OneByteOut(c);
    FlushInv(s1, rw.w);
    FlushFields(s1, rw.w);
    EmptyLog();
    PartIsNotWhole([], c, 1);
    assert [] + Encode(c)[..1] == Encode(c)[..1];
    RotationNeedsWholeCommands(f, ROTATE);
    OpenNewIncrFields(f, ROTATE);
    StartedByRotation(s1, rw);
    AfterEnable([Execute(c)] + ([BgRewrite(rw)] + []));
    RunOne(Enabled(), Execute(c), [BgRewrite(rw)] + []);
    RunOne(s1, BgRewrite(rw), []);
    RunNone(StartRewrite(s1, rw).0);
  }

  lemma OneByteOut(c: Command)
    requires |Encode(c)| > 1
    ensures var f := Flush(Fed(c), Write(1, false));
            f.fd == Some(0) && |f.data| == 2 && f.data[0] == Log(Encode(c)[..1]) && f.buf == Encode(c)[1..]
    ensures WriteOk(Fed(c), Write(1, false))
  {
    hide Encode;
  }

  lemma StartedByRotation(s: State, rw: Rewrite)
    requires s.mode == On && s.child == NoChild && !InProgress(s.backup) && rw.r.openOk && rw.r.p == Written && rw.forkOk
    ensures var o := OpenNewIncr(Flush(s, rw.w), rw.r).0; StartRewrite(s, rw).0 == o.(child := AofChild(o.hist))
  {
    FlushFields(s, rw.w);
    RotationIff(Flush(s, rw.w), rw.r);
    hide Flush, OpenNewIncr;
  }

  /** The flush before a fork writes nothing: after the rewrite the command is there twice. */
  lemma ReplayedTwiceRun(c: Command)
    requires Valid(c)
    ensures var s := RunEvents(Init([]), ENABLE + ([Execute(c)] + ([BgRewrite(REWRITE)] + ([ChildExit(DONE)] +
                                                   ([FlushBuf(Write(|Encode(c)|, false))] + [])))));
            s.hist == [c] && LoadAll(DiskManifest(s), s.dir, s.data) == Some([c, c])
  {
    hide Inv, Encode, Valid, LoadAll, RunEvents, Flush, Complete, StartRewrite, RewriteDone, EndsWhole, Decoded;
    FedInv(c);
    var s1, all := Fed(c), Write(|Encode(c)|, false);
    NothingOut(c);
    var s2 := StartRewrite(s1, REWRITE).0;
    var s3 := RewriteDone(s2, DONE);
    UnflushedCommandsReplayTwice(s1, REWRITE, DONE);
    CompleteOfOne(c);
    BufferStays(s1, REWRITE, DONE);
    assert [c] + [c] == [c, c];
    AfterEnable([Execute(c)] + ([BgRewrite(REWRITE)] + ([ChildExit(DONE)] + ([FlushBuf(all)] + []))));
    RunOne(Enabled(), Execute(c), [BgRewrite(REWRITE)] + ([ChildExit(DONE)] + ([FlushBuf(all)] + [])));
    RunOne(s1, BgRewrite(REWRITE), [ChildExit(DONE)] + ([FlushBuf(all)] + []));
    RunOne(s2, ChildExit(DONE), [FlushBuf(all)] + []);
    RunOne(s3, FlushBuf(all), []);
    RunNone(Flush(s3, all));
  }

  lemma NothingOut(c: Command)
    ensures Flush(Fed(c), Write(0, false)).buf == Encode(c) && EndsWhole(Flush(Fed(c), Write(0, false)))
  {
    hide Encode;
    assert Encode(c)[..0] == [] && Encode(c)[0..] == Encode(c);
    EmptyLog();
    var s := Fed(c);
    FlushIs(s, Write(0, false));
    AppendNothing(s.data, 0);
  }

  lemma CompleteOfOne(c: Command)
    requires Valid(c)
    ensures Decoded(Encode(c)) == [c]
  {
    hide Encode, Decoded, Valid;
    EmptyLog();
    CompleteExtend([], c);
    assert [] + Encode(c) == Encode(c) && [] + [c] == [c];
  }

  lemma BufferStays(s: State, rw: Rewrite, d: Done)
    requires Inv(s) && s.mode == On && s.child == NoChild && !InProgress(s.backup)
    requires rw.r.openOk && rw.r.p == Written && rw.forkOk && d.exitOk && d.renameBaseOk && d.p == Written
    ensures RewriteDone(StartRewrite(s, rw).0, d).buf == Flush(s, rw.w).buf
  {
    hide *;
    InvCore(s);
    FlushCoherent(s, rw.w);
    FlushFields(s, rw.w);
    UnflushedStart(s, rw);
    UnflushedCycle(Flush(s, rw.w), rw.r.offset, d);
  }

  // ---------------------------------------------------------------- manifests that are renamed but not synced

  /** The manifest of a finished rewrite is renamed but not synced: its BASE is gone. */
  lemma LostBaseRun()
    ensures var d := DONE.(p := RenamedNotSynced);
            var s := RunEvents(Init([]), ENABLE + ([BgRewrite(REWRITE)] + ([ChildExit(d)] + [])));
            LoadAll(DiskManifest(s), s.dir, s.data) == None
  {
    EnabledInv();
    var s0, d := Enabled(), DONE.(p := RenamedNotSynced);
    NothingToFlush();
    hide Inv, LoadAll, RunEvents, Flush, StartRewrite, RewriteDone, Step;
    StepInvRewrite(s0);
    var s1 := StartRewrite(s0, REWRITE).0;
    StartRewriteFields(s0, REWRITE);
    ForkIff(s0, REWRITE);
    ManifestMustBeAtomic(s1, d);
    AfterEnable([BgRewrite(REWRITE)] + ([ChildExit(d)] + []));
    RunOne(s0, BgRewrite(REWRITE), [ChildExit(d)] + []);
    StepIs(s0, s1, d);
    RunOne(s1, ChildExit(d), []);
    RunNone(RewriteDone(s1, d));
  }

  lemma StepIs(s0: State, s1: State, d: Done)
    ensures Step(s0, BgRewrite(REWRITE)) == StartRewrite(s0, REWRITE).0
    ensures Step(s1, ChildExit(d)) == RewriteDone(s1, d)
  {
    hide StartRewrite, RewriteDone;
  }

  lemma NothingToFlush()
    ensures Flush(Enabled(), Write(0, false)).buf == []
  {
  }

  lemma StepInvRewrite(s: State)
    requires Inv(s) && Flush(s, REWRITE.w).buf == []
    ensures Inv(StartRewrite(s, REWRITE).0)
  {
    hide Inv, Flush, StartRewrite;
    StartRewriteInv(s, REWRITE);
  }

  /** The manifest of a rotation is renamed but not synced: a crash inside the next command is fatal. */
  lemma UnsyncedRotationRun(c: Command)
    requires Valid(c)
    ensures var rw := REWRITE.(r := ROTATE.(p := RenamedNotSynced));
            var s := RunEvents(Init([]), ENABLE + ([BgRewrite(rw)] + ([Execute(c)] + [])));
            1 <= |s.buf| && LoadAll(DiskManifest(s), s.dir, Torn(s, 1)) == None
  {
    EnabledInv();
    var s0, rw := Enabled(), REWRITE.(r := ROTATE.(p := RenamedNotSynced));
    NothingToFlush();
    EncodeLong(c);
    hide Inv, LoadAll, RunEvents, Flush, StartRewrite, Encode, Torn, Feed;
    RewriteMustBeAtomic(s0, rw, c, 1);
    AfterEnable([BgRewrite(rw)] + ([Execute(c)] + []));
    RunOne(s0, BgRewrite(rw), [Execute(c)] + []);
    RunOne(StartRewrite(s0, rw).0, Execute(c), []);
    RunNone(Feed(StartRewrite(s0, rw).0, c));
  }

  // ---------------------------------------------------------------- a backup sealed too early

  const BACKUP: Event := StartBackup(false, false, REWRITE, STOP)
  const PIN: seq<Event> := [SetEnabled(true, REWRITE, STOP)] + ([BACKUP] + ([ChildExit(DONE)] + []))
  const SEAL: Sealing := Sealing(Write(0, false), true, 0, Written, true, true, ROTATE, STOP)

  /** A backup started during the first rewrite, which it takes as its snapshot. */
  function Pinned(): State {
    Enabled().(backup := Incrementing, bdir := map[BASE_1 := 1], bBase := Some(BASE_1))
  }

  lemma PinEnds()
    ensures Step(Awaiting(), BACKUP) == Awaiting().(backup := Snapshotting)
    ensures Step(Awaiting().(backup := Snapshotting), ChildExit(DONE)) == Pinned()
  {
    hide Install, Succeeded, BackupFailed, RewriteDone, Seal, DelHistory, Restart, Interrupted, ChangeEnabled, StartRewrite,
         StartAof;
    FirstInstall(Awaiting().(backup := Snapshotting));
    RewriteDoneCases(Awaiting().(backup := Snapshotting), DONE);
  }

  lemma PinnedInv()
    ensures RunEvents(Init([]), PIN) == Pinned() && Inv(Pinned())
  {
    EnableStarts();
    PinEnds();
    InitInv([]);
    hide Step, Inv, RunEvents;
    var s := Awaiting().(backup := Snapshotting);
    StepInv(Init([]), SetEnabled(true, REWRITE, STOP));
    StepInv(Awaiting(), BACKUP);
    StepInv(s, ChildExit(DONE));
    RunOne(Init([]), SetEnabled(true, REWRITE, STOP), [BACKUP] + ([ChildExit(DONE)] + []));
    RunOne(Awaiting(), BACKUP, [ChildExit(DONE)] + []);
    RunOne(s, ChildExit(DONE), []);
    RunNone(Pinned());
  }

  /** The flush of SEAL writes nothing: the sealed backup lacks the command. */
  lemma EarlySealRun(c: Command)
    requires Valid(c)
    ensures var s := RunEvents(Init([]), PIN + ([Execute(c)] + ([SealBackup(SEAL)] + [])));
            s.backup == Sealed && s.hist == [c] && LoadBackup(s) != Some([c])
  {
    hide Inv, RunEvents, Step, Seal, LoadBackup, Encode, Flush, Valid;
    PinnedInv();
    var s := Feed(Pinned(), c);
    FeedStep(Pinned(), c);
    StepInv(Pinned(), Execute(c));
    EncodeLong(c);
    FlushesNothing(s);
    SealNeedsFlush(s, SEAL);
    SealStep(s, SEAL);
    RunMore(Init([]), PIN, [Execute(c)] + ([SealBackup(SEAL)] + []));
    RunOne(Pinned(), Execute(c), [SealBackup(SEAL)] + []);
    RunOne(s, SealBackup(SEAL), []);
    RunNone(Seal(s, SEAL));
  }

  lemma FeedStep(s: State, c: Command)
    ensures Step(s, Execute(c)) == Feed(s, c)
  {
    hide Encode;
  }

  lemma SealStep(s: State, q: Sealing)
    ensures Step(s, SealBackup(q)) == Seal(s, q)
  {
    hide Seal;
  }

  lemma FlushesNothing(s: State)
    ensures Flush(s, Write(0, false)).buf == s.buf
  {
    assert s.buf[0..] == s.buf;
  }

  // ---------------------------------------------------------------- while the first rewrite runs

  const SWITCH_ON: Event := SetEnabled(true, REWRITE, STOP)

  /** A command executed while the first rewrite runs. */
  function AwaitingFed(c: Command): State {
    Awaiting().(hist := [c], buf := Encode(c))
  }

  lemma AwaitingFedInv(c: Command)
    requires Valid(c)
    ensures RunEvents(Init([]), [SWITCH_ON] + ([Execute(c)] + [])) == AwaitingFed(c) && Inv(AwaitingFed(c))
  {
    EnableStarts();
    InitInv([]);
    hide Inv, Encode, Valid, Step, RunEvents;
    StepInv(Init([]), SWITCH_ON);
    StepInv(Awaiting(), Execute(c));
    FeedStep(Awaiting(), c);
    assert [] + [c] == [c] && [] + Encode(c) == Encode(c);
    RunOne(Init([]), SWITCH_ON, [Execute(c)] + []);
    RunOne(Awaiting(), Execute(c), []);
    RunNone(AwaitingFed(c));
  }

  /** A short write is taken back from the temporary INCR, and the rewrite installs the hole. */
  lemma FirstHoleRun(c: Command)
    requires Valid(c)
    ensures var s := RunEvents(Init([]), ([SWITCH_ON] + ([Execute(c)] + [])) + ([FlushBuf(Write(1, true))] +
                                         ([FlushBuf(Write(|Encode(c)|, false))] + ([ChildExit(DONE)] + []))));
            s.mode == On && s.hist == [c] && LoadAll(DiskManifest(s), s.dir, s.data) == None
  {
    hide Inv, Encode, Valid, LoadAll, RunEvents, Flush, RewriteDone, Complete, HoleHidden;
    AwaitingFedInv(c);
    EncodeLong(c);
    var s, w, all := AwaitingFed(c), Write(1, true), Write(|Encode(c)|, false);
    EmptyLog();
    FirstHoleIff(s, w, DONE);
    UndoneKeeps(s, w);
    FlushStep(s, w);
    FlushStep(Flush(s, w), all);
    DoneStep(Flush(Flush(s, w), all), DONE);
    hide Step;
    RunMore(Init([]), [SWITCH_ON] + ([Execute(c)] + []), [FlushBuf(w)] + ([FlushBuf(all)] + ([ChildExit(DONE)] + [])));
    RunOne(s, FlushBuf(w), [FlushBuf(all)] + ([ChildExit(DONE)] + []));
    RunOne(Flush(s, w), FlushBuf(all), [ChildExit(DONE)] + []);
    RunOne(Flush(Flush(s, w), all), ChildExit(DONE), []);
    RunNone(RewriteDone(Flush(Flush(s, w), all), DONE));
  }

  lemma DoneStep(s: State, d: Done)
    ensures Step(s, ChildExit(d)) == RewriteDone(s, d)
  {
    hide RewriteDone;
  }

  /** The process dies between the rename of the first INCR and the manifest; the next one takes the
      file for its own. */
  lemma FirstInstallCrashRun(c: Command)
    requires Valid(c)
    ensures var r := Restarting(0, true, [], true, 0, {}, Written);
            var s := RunEvents(Init([]), ([SWITCH_ON] + ([Execute(c)] + [])) +
                                         ([FlushBuf(Write(|Encode(c)|, false))] + ([CrashInstalling(DONE, IncrRenamed, r)] + [])));
            s.mode == On && !Live(s) && LoadAll(DiskManifest(s), s.dir, s.data) == Some(s.hist + [c])
  {
    hide Inv, Encode, Valid, LoadAll, RunEvents, Flush, Restart, Live, Interrupted, Decoded, Complete;
    AwaitingFedInv(c);
    EncodeLong(c);
    var s, all, r := AwaitingFed(c), Write(|Encode(c)|, false), Restarting(0, true, [], true, 0, {}, Written);
    var t, e := Flush(s, all), CrashInstalling(DONE, IncrRenamed, r);
    AwaitingWrites(c);
    FlushStep(s, all);
    StepInv(s, FlushBuf(all));
    FirstInstallCrashIff(t, DONE, r);
    CompleteOfOne(c);
    var u := Restart(Interrupted(t, DONE, IncrRenamed), r);
    assert Step(t, e) == u;
    hide Step;
    RunMore(Init([]), [SWITCH_ON] + ([Execute(c)] + []), [FlushBuf(all)] + ([e] + []));
    RunOne(s, FlushBuf(all), [e] + []);
    RunOne(t, e, []);
    RunNone(u);
  }

  lemma AwaitingWrites(c: Command)
    ensures var n := |Encode(c)|;
            Flush(AwaitingFed(c), Write(n, false)) ==
            Awaiting().(hist := [c], data := [Log(Encode(c))], cur := Cursor(false, n, n))
  {
    hide Encode;
    var n := |Encode(c)|;
    assert Encode(c)[..n] == Encode(c) && Encode(c)[n..] == [];
    assert [] + Encode(c) + [] == Encode(c) && Encode(c) + [] == Encode(c);
  }

  // ---------------------------------------------------------------- a backup that owns the directory

  const OWN: seq<Event> := [StartBackup(false, false, REWRITE, STOP)] + ([ChildExit(DONE)] + [])

  function OwnAwaiting(): State {
    Awaiting().(enabled := false, backup := Snapshotting, canRemove := true)
  }

  function Owned(): State {
    Enabled().(enabled := false, backup := Incrementing, canRemove := true, bdir := map[BASE_1 := 1], bBase := Some(BASE_1))
  }

  lemma OwnStarts()
    ensures Step(Init([]), StartBackup(false, false, REWRITE, STOP)) == OwnAwaiting()
  {
    var s := Init([]).(backup := Pending, canRemove := true, mode := WaitRewrite);
    assert Open(s, TempIncrName, true) == s.(dir := map[TempIncrName := 0], data := [Log([])]);
    assert OpenNewIncr(s, ROTATE) == (s.(dir := map[TempIncrName := 0], data := [Log([])], fd := Some(0)), true);
    hide Open, OpenNewIncr, BackupFailed;
  }

  lemma OwnEnds()
    ensures Step(OwnAwaiting(), ChildExit(DONE)) == Owned()
  {
    hide Install, Succeeded, BackupFailed, RewriteDone;
    FirstInstall(OwnAwaiting());
    RewriteDoneCases(OwnAwaiting(), DONE);
  }

  lemma OwnedInv()
    ensures RunEvents(Init([]), OWN) == Owned() && Inv(Owned())
  {
    OwnStarts();
    OwnEnds();
    InitInv([]);
    hide Step, Inv, RunEvents;
    StepInv(Init([]), StartBackup(false, false, REWRITE, STOP));
    StepInv(OwnAwaiting(), ChildExit(DONE));
    RunOne(Init([]), StartBackup(false, false, REWRITE, STOP), [ChildExit(DONE)] + []);
    RunOne(OwnAwaiting(), ChildExit(DONE), []);
    RunNone(Owned());
  }

  /** A backup of a server without AOF is in progress, appendonly is switched on, the backup aborted:
      AOF is on and every file is gone. */
  lemma OwnedBackupRun()
    ensures var s := RunEvents(Init([]), OWN + ([SetEnabled(true, REWRITE, STOP)] + ([AbortBackup(STOP)] + [])));
            s.mode == On && s.enabled && s.dir == map[] && s.disk == None && !Live(s)
  {
    hide Inv, RunEvents, Live, Step, BackupFailed, ChangeEnabled;
    OwnedInv();
    var s0, e := Owned(), SetEnabled(true, REWRITE, STOP);
    var s1 := s0.(enabled := true);
    EnablingDuringOwnedBackup(s0, REWRITE, STOP);
    OwnedAborts();
    RunMore(Init([]), OWN, [e] + ([AbortBackup(STOP)] + []));
    RunOne(s0, e, [AbortBackup(STOP)] + []);
    RunOne(s1, AbortBackup(STOP), []);
    RunNone(BackupFailed(s1, STOP));
  }

  /** A backup of a server without AOF sealed without a flush lacks the command. */
  lemma OwnedSealRun(c: Command)
    requires Valid(c)
    ensures var s := RunEvents(Init([]), OWN + ([Execute(c)] + ([SealBackup(SEAL)] + [])));
            s.backup == Sealed && s.hist == [c] && LoadBackup(s) != Some([c])
  {
    hide Inv, RunEvents, Step, Seal, LoadBackup, Encode, Flush, Valid, HoleHidden;
    OwnedInv();
    var s := Feed(Owned(), c);
    FeedStep(Owned(), c);
    StepInv(Owned(), Execute(c));
    EncodeLong(c);
    FlushesNothing(s);
    FlushFields(s, SEAL.w);
    FlushesNothing(Flush(s, SEAL.w));
    SealOffNeedsFlush(s, SEAL);
    SealStep(s, SEAL);
    RunMore(Init([]), OWN, [Execute(c)] + ([SealBackup(SEAL)] + []));
    RunOne(Owned(), Execute(c), [SealBackup(SEAL)] + []);
    RunOne(s, SealBackup(SEAL), []);
    RunNone(Seal(s, SEAL));
  }

  lemma OwnedAborts()
    ensures var s := Owned().(enabled := true);
            && ChangeEnabled(Owned(), true, REWRITE, STOP) == s == Step(Owned(), SetEnabled(true, REWRITE, STOP))
            && Step(s, AbortBackup(STOP)) == BackupFailed(s, STOP)
            && BackupFailed(s, STOP).enabled && BackupFailed(s, STOP).dir == map[] && BackupFailed(s, STOP).disk == None
  {
    var s := Owned().(enabled := true);
    assert StopTempAof(s.(backup := Failed), STOP) == s.(backup := Failed);
  }

  // ---------------------------------------------------------------- a name from history

  const BASE_2: FileName := BaseName(2, true)

  const STOPPED: AofManifest := FIRST.(incr := [Info(INCR_1, 1, IncrFile, 0, 0)])

  const LEFT_OVER: AofManifest :=
    Manifest(Some(Info(BASE_2, 2, BaseFile, -1, -1)),
             [Info(INCR_1, 1, HistFile, 0, 0), Info(BASE_1, 1, HistFile, -1, -1)], [], 2, 1, false)

  const KEEP: set<FileName> := {INCR_1, BASE_1}

  /** AOF on, a command written, AOF off again. */
  function SwitchedOff(c: Command): State {
    Init([]).(hist := [c], dir := map[BASE_1 := 1, INCR_1 := 0], data := [Log(Encode(c)), Snapshot([])],
              disk := Some(STOPPED), am := STOPPED)
  }

  /** A rewrite while AOF is off, whose history could not be deleted. */
  function Retained(c: Command): State {
    Init([]).(hist := [c], dir := map[BASE_1 := 1, INCR_1 := 0, BASE_2 := 2],
              data := [Log(Encode(c)), Snapshot([]), Snapshot([c])], disk := Some(LEFT_OVER), am := LEFT_OVER)
  }

  lemma WritesOut(c: Command)
    requires |Encode(c)| > 1
    ensures var n := |Encode(c)|;
            Flush(Fed(c), Write(n, false)) ==
            Enabled().(hist := [c], data := [Log(Encode(c)), Snapshot([])], cur := Cursor(false, n, n))
  {
    hide Encode;
    var n := |Encode(c)|;
    assert Encode(c)[..n] == Encode(c) && Encode(c)[n..] == [];
    assert [] + Encode(c) + [] == Encode(c) && Encode(c) + [] == Encode(c);
  }

  lemma SwitchesOff(c: Command)
    ensures var n := |Encode(c)|;
            var s := Enabled().(hist := [c], data := [Log(Encode(c)), Snapshot([])], cur := Cursor(false, n, n));
            Step(s, SetEnabled(false, REWRITE, STOP)) == SwitchedOff(c)
  {
    hide Encode, StopFiles;
    var n := |Encode(c)|;
    var s := Enabled().(hist := [c], data := [Log(Encode(c)), Snapshot([])], cur := Cursor(false, n, n), enabled := false);
    StopsFiles(c, s);
    assert StopAof(s, STOP) == SwitchedOff(c);
  }

  lemma StopsFiles(c: Command, s: State)
    requires var n := |Encode(c)|;
             s == Enabled().(hist := [c], data := [Log(Encode(c)), Snapshot([])], cur := Cursor(false, n, n), enabled := false)
    ensures StopFiles(s, STOP) == SwitchedOff(c)
  {
    hide Encode, Flush;
    EmptyWrite(s, Write(0, false));
    assert SetEndOffset(FIRST, 0) == STOPPED.(dirty := true) by {
      assert FIRST.incr[0 := FIRST.incr[0].(endOffset := 0)] == STOPPED.incr;
    }
  }

  lemma RewritesOff(c: Command)
    ensures Step(SwitchedOff(c), BgRewrite(REWRITE)) == SwitchedOff(c).(child := AofChild([c]))
  {
    hide Encode;
  }

  lemma RetainedManifest()
    ensures MarkRewritten(NewBase(STOPPED, true), false) == LEFT_OVER.(dirty := true)
  {
    var m := NewBase(STOPPED, true);
    assert m.incr[|m.incr|..] == [] && m.incr[..|m.incr|] == m.incr;
    assert AllAsHistory(m.incr) == [Info(INCR_1, 1, HistFile, 0, 0)];
    assert m.hist == [Info(BASE_1, 1, HistFile, -1, -1)] + [];
  }

  lemma NothingUnlinked()
    ensures UnlinkedNames(LEFT_OVER.hist, KEEP) == {}
  {
    forall n
      ensures n !in UnlinkedNames(LEFT_OVER.hist, KEEP)
    {
      UnlinkedNamesMembers(LEFT_OVER.hist, KEEP, n);
    }
  }

  lemma Retains(c: Command)
    ensures Step(SwitchedOff(c).(child := AofChild([c])), ChildExit(DONE.(stuck := KEEP))) == Retained(c)
  {
    hide Encode;
    var s, d := SwitchedOff(c).(child := AofChild([c])), DONE.(stuck := KEEP);
    RetainedManifest();
    NothingUnlinked();
    var t := Install(s, d).0;
    assert t.data == [Log(Encode(c)), Snapshot([])] + [Snapshot([c])];
    assert t == Retained(c).(child := AofChild([c]));
    assert t.dir - {} == t.dir;
    hide UnlinkedNames, StuckHistory, Install;
  }

  // The run to a manifest that lists no INCR and has INCR 1 in its history.

  function RetainEvents(c: Command): seq<Event> {
    [Execute(c)] + ([FlushBuf(Write(|Encode(c)|, false))] + ([SetEnabled(false, REWRITE, STOP)] +
    ([BgRewrite(REWRITE)] + ([ChildExit(DONE.(stuck := KEEP))] + []))))
  }

  lemma RetainedInv(c: Command)
    requires Valid(c)
    ensures RunEvents(Init([]), ENABLE + RetainEvents(c)) == Retained(c) && Inv(Retained(c))
  {
    hide Inv, Encode, Valid, RunEvents, Step;
    FedInv(c);
    var n := |Encode(c)|;
    var e2, e3, e4, e5 := FlushBuf(Write(n, false)), SetEnabled(false, REWRITE, STOP), BgRewrite(REWRITE),
                          ChildExit(DONE.(stuck := KEEP));
    var s2 := Enabled().(hist := [c], data := [Log(Encode(c)), Snapshot([])], cur := Cursor(false, n, n));
    var s4 := SwitchedOff(c).(child := AofChild([c]));
    assert Step(Fed(c), e2) == s2 by { FlushStep(Fed(c), Write(n, false)); WritesOut(c); }
    SwitchesOff(c);
    RewritesOff(c);
    Retains(c);
    StepInv(Fed(c), e2);
    StepInv(s2, e3);
    StepInv(SwitchedOff(c), e4);
    StepInv(s4, e5);
    AfterEnable(RetainEvents(c));
    RunOne(Enabled(), Execute(c), [e2] + ([e3] + ([e4] + ([e5] + []))));
    RunOne(Fed(c), e2, [e3] + ([e4] + ([e5] + [])));
    RunOne(s2, e3, [e4] + ([e5] + []));
    RunOne(SwitchedOff(c), e4, [e5] + []);
    RunOne(s4, e5, []);
    RunNone(Retained(c));
  }

  lemma FlushStep(s: State, w: Write)
    ensures Step(s, FlushBuf(w)) == Flush(s, w)
  {
    hide Flush;
  }

  lemma CrashStep(s: State, r: Restarting)
    ensures Step(s, Crash(r)) == Restart(s, r)
  {
    hide Restart;
  }

  lemma MissingFile(m: AofManifest, dir: map<FileName, Inode>, data: seq<Content>, n: FileName)
    requires Listed(m, n) && n !in dir
    ensures LoadAll(m, dir, data) == None
  {
    if BasePresent(m.base, dir, data) {
      var i :| 0 <= i < |m.incr| && m.incr[i].name == n;
    }
  }

  /** The restart opens INCR 1 and then deletes it as history: the files do not load. */
  lemma ReusedNameRun(c: Command)
    requires Valid(c)
    ensures var r := Restarting(0, true, [], true, 0, {}, Written);
            var s := RunEvents(Init([]), ENABLE + (RetainEvents(c) + ([Crash(r)] + [])));
            && !(forall n :: Listed(DiskManifest(s), n) ==> n in s.dir)
            && LoadAll(DiskManifest(s), s.dir, s.data) == None
  {
    var r := Restarting(0, true, [], true, 0, {}, Written);
    RetainedReuses(c, r);
    hide Inv, RunEvents, Step, Listed, Restart, Retained, RetainEvents, LoadAll, ReusesName;
    RetainedInv(c);
    InvCore(Retained(c));
    RestartKeepsListedIff(Retained(c), r);
    var s := Restart(Retained(c), r);
    var n :| Listed(DiskManifest(s), n) && n !in s.dir;
    MissingFile(DiskManifest(s), s.dir, s.data, n);
    RunTo(c, r);
  }

  lemma RunTo(c: Command, r: Restarting)
    requires Valid(c)
    ensures RunEvents(Init([]), ENABLE + (RetainEvents(c) + ([Crash(r)] + []))) == Restart(Retained(c), r)
  {
    hide Inv, RunEvents, Step, Restart, Retained, RetainEvents;
    RetainedInv(c);
    assert ENABLE + (RetainEvents(c) + ([Crash(r)] + [])) == (ENABLE + RetainEvents(c)) + ([Crash(r)] + []);
    RunMore(Init([]), ENABLE + RetainEvents(c), [Crash(r)] + []);
    RunOne(Retained(c), Crash(r), []);
    CrashStep(Retained(c), r);
    RunNone(Restart(Retained(c), r));
  }

  lemma RetainedReuses(c: Command, r: Restarting)
    requires r.stuck == {}
    ensures ReusesName(Retained(c), r)
  {
    hide Encode;
    assert LEFT_OVER.hist[0].name == INCR_1;
  }

  /** What the process that starts on the retained files looks like. */
  lemma RetainedStarts(c: Command, r: Restarting)
    requires r.enabled && r.torn == 0
    requires var t := Rebooted(Retained(c), r); Present(t.am.incr, t.dir, t.data) && LoadAll(t.am, t.dir, t.data).Some?
    ensures var t := Starting(Retained(c), r);
            t.am == LEFT_OVER.(incrSeq := 0) && t.dir == Retained(c).dir && t.data == Retained(c).data && t.hist == [c]
  {
    hide Encode;
    var t := Rebooted(Retained(c), r);
    assert t.am == LEFT_OVER.(incrSeq := 0) && t.data == Retained(c).data;
    assert Logs(t.am.incr, t.dir, t.data) == [];
    assert [c] + [] == [c];
  }

  lemma NothingDeleted(s: State, p: Persist)
    requires s.am.hist == LEFT_OVER.hist
    ensures DelHistory(s, KEEP, p) == s
  {
    NothingUnlinked();
    hide UnlinkedNames, StuckHistory;
    assert s.dir - {} == s.dir;
  }

  /** If INCR 1 still cannot be deleted at the restart, its command is replayed on top of the BASE
      that already has it. */
  lemma StaleIncrRun(c: Command)
    requires Valid(c)
    ensures var r := Restarting(0, true, [], true, 0, KEEP, Written);
            var s := RunEvents(Init([]), ENABLE + (RetainEvents(c) + ([Crash(r)] + [])));
            s.hist == [c] && LoadAll(DiskManifest(s), s.dir, s.data) == Some([c, c])
  {
    var r := Restarting(0, true, [], true, 0, KEEP, Written);
    hide Inv, RunEvents, Step, LoadAll, Restart, RetainEvents, Encode, Decoded, Complete, Cut, DelHistory, OpenOnStart,
         Rebooted, Starting;
    RetainedInv(c);
    InvCore(Retained(c));
    RestartIs(Retained(c), r);
    RetainedStarts(c, r);
    var t := Starting(Retained(c), r);
    CompleteOfOne(c);
    WholeIsCut(c);
    assert Logs(t.am.incr, t.dir, t.data) == [];
    StaleIncrReplayed(t, r.rdb, r.offset);
    var o := OpenOnStart(t, r.rdb, r.offset);
    OpenedManifest(t, r.rdb, r.offset);
    NothingDeleted(o, r.p);
    OpenOnStartMode(t, r.rdb, r.offset);
    assert [c] + [c] == [c, c];
    RunTo(c, r);
  }

  lemma WholeIsCut(c: Command)
    requires Valid(c)
    ensures Cut(Encode(c))
  {
    hide Encode, Decoded, Complete, Cut;
    EmptyLog();
    CompleteExtend([], c);
    assert [] + Encode(c) == Encode(c);
    CompleteIsCut(Encode(c));
  }

  // Restarted with AOF off, and switched on.

  function RestartedOff(c: Command): State {
    Retained(c).(am := LEFT_OVER.(incrSeq := 0), hist := [])
  }

  lemma RestartsOff(c: Command)
    ensures Restart(Retained(c), Restarting(0, false, [], true, 0, KEEP, Written)) == RestartedOff(c)
  {
    hide Encode, DelHistory;
    var r := Restarting(0, false, [], true, 0, KEEP, Written);
    assert Rebooted(Retained(c), r) == RestartedOff(c);
    NothingDeleted(RestartedOff(c), r.p);
  }

  function SwitchedOn(c: Command): State {
    RestartedOff(c).(dir := RestartedOff(c).dir[TempIncrName := 3], data := RestartedOff(c).data + [Log([])],
                     mode := WaitRewrite, enabled := true, fd := Some(3), child := AofChild([]))
  }

  lemma SwitchesOn(c: Command)
    ensures Step(RestartedOff(c), SWITCH_ON) == SwitchedOn(c)
  {
    hide Encode;
    var s := RestartedOff(c).(enabled := true, mode := WaitRewrite);
    assert TempIncrName !in s.dir && |s.data| == 3;
    assert Open(s, TempIncrName, true) == s.(dir := s.dir[TempIncrName := 3], data := s.data + [Log([])]);
    assert OpenNewIncr(s, ROTATE) == (s.(dir := s.dir[TempIncrName := 3], data := s.data + [Log([])], fd := Some(3)), true);
    hide Open, OpenNewIncr;
  }

  /** The first rewrite names its INCR like the one in history and then deletes it. */
  lemma SwitchedOnReuseRun(c: Command)
    requires Valid(c)
    ensures var r := Restarting(0, false, [], true, 0, KEEP, Written);
            var s := RunEvents(Init([]), ENABLE + (RetainEvents(c) + ([Crash(r)] + [])) + ([SWITCH_ON] + ([ChildExit(DONE)] + [])));
            && !(forall n :: Listed(DiskManifest(s), n) ==> n in s.dir)
            && LoadAll(DiskManifest(s), s.dir, s.data) == None
  {
    var r := Restarting(0, false, [], true, 0, KEEP, Written);
    RestartsOff(c);
    SwitchesOn(c);
    assert LEFT_OVER.hist[0].name == INCR_1;
    hide RunEvents, Step, Restart, Retained, RetainEvents, LoadAll, RewriteDone;
    var t := SwitchedOn(c);
    InstallKeepsListedIff(t, DONE);
    hide Listed;
    var s := RewriteDone(t, DONE);
    var n :| Listed(DiskManifest(s), n) && n !in s.dir;
    MissingFile(DiskManifest(s), s.dir, s.data, n);
    RunTo(c, r);
    DoneStep(t, DONE);
    var es := ENABLE + (RetainEvents(c) + ([Crash(r)] + []));
    RunMore(Init([]), es, [SWITCH_ON] + ([ChildExit(DONE)] + []));
    RunOne(RestartedOff(c), SWITCH_ON, [ChildExit(DONE)] + []);
    RunOne(t, ChildExit(DONE), []);
    RunNone(s);
  }
}
