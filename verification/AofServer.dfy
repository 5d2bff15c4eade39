/** The append-only file as a crash-safe protocol: the server's writes, rewrites and
    BACKUP commands as steps over memory and disk, with every failure outcome of the
    system calls they make, process crashes and restarts. */
module AofServer {
  import opened Options
  import opened Decimal
  import opened Resp
  import opened Manifest
  import opened AofLog
  import AofFlush

  // ---------------------------------------------------------------- state

  type Inode = nat

  /** A BASE holds the dataset, here as the commands that lead to it; an INCR is a log. */
  datatype Content = Snapshot(cmds: seq<Command>) | Log(bytes: seq<byte>)

  datatype Mode = Off | WaitRewrite | On

  /** The forked child; an AOF child carries the dataset it was forked with. */
  datatype Child = NoChild | AofChild(snap: seq<Command>) | OtherChild

  datatype Backup = Idle | Pending | Snapshotting | Incrementing | Sealed | Failed

  /** How writing the manifest file ends: written; failed before its rename; or failed
      after it, when the directory could not be synced. */
  datatype Persist = Written | NotRenamed | RenamedNotSynced

  /** Where the descriptor stands: opened with O_APPEND or not, its offset, and how long the server
      believes the file is (aof_last_incr_size). */
  datatype Cursor = Cursor(append: bool, pos: nat, size: nat)

  const NO_CURSOR: Cursor := Cursor(false, 0, 0)

  datatype State = State(
    // disk
    dir: map<FileName, Inode>,         // the append-only directory
    bdir: map<FileName, Inode>,        // the backup directory (hard links)
    data: seq<Content>,                // contents by inode
    disk: Option<AofManifest>,         // the manifest file
    // memory
    hist: seq<Command>,                // every write command executed: the dataset
    am: AofManifest,
    mode: Mode,
    enabled: bool,                     // the appendonly setting
    fd: Option<Inode>,
    cur: Cursor,
    buf: seq<byte>,                    // aof_buf
    child: Child,
    gcDisabled: bool,
    backup: Backup,
    bBase: Option<FileName>,
    bIncr: Option<FileName>,
    canRemove: bool,                   // backup_can_remove_aof_dir
    sealedHist: seq<Command>,          // what `hist` was when the backup was sealed
    aborted: bool)                     // an assertion failed or the files could not be loaded

  predicate InProgress(b: Backup) {
    b == Pending || b == Snapshotting || b == Incrementing
  }

  // ---------------------------------------------------------------- small operations

  /** The manifest file after persistAofManifest. */
  function DiskAfter(disk: Option<AofManifest>, m: AofManifest, p: Persist): Option<AofManifest> {
    if !m.dirty || p == NotRenamed then disk else Some(m.(dirty := false))
  }

  /** One write(2) loop over the buffer: `n` bytes went out; `undone` when a short write
      was taken back with ftruncate. */
  datatype Write = Write(n: nat, undone: bool)

  /** The descriptor, over the file it is open on. */
  function Descriptor(s: State): AofFlush.Fd
    requires s.fd.Some?
  {
    AofFlush.Fd(if s.fd.value < |s.data| && s.data[s.fd.value].Log? then s.data[s.fd.value].bytes else [],
                s.cur.append, s.cur.pos)
  }

  function Store(data: seq<Content>, i: Inode, b: seq<byte>): seq<Content> {
    if i < |data| && data[i].Log? then data[i := Log(b)] else data
  }

  /** A short write that ftruncate takes back. */
  predicate Undone(s: State, w: Write) {
    s.fd.Some? && 0 < w.n < |s.buf| && w.undone
  }

  /** flushAppendOnlyFile with force set. */
  function Flush(s: State, w: Write): State {
    if s.fd.None? then s else
    var n := if w.n < |s.buf| then w.n else |s.buf|;
    var put := AofFlush.Put(Descriptor(s), s.buf[..n]);
    var left := if Undone(s, w) then AofFlush.Truncate(put, s.cur.size) else put;
    var kept := if Undone(s, w) then 0 else n;
    s.(data := Store(s.data, s.fd.value, left.contents), buf := s.buf[kept..],
       cur := Cursor(s.cur.append, left.pos, s.cur.size + kept))
  }

  /** open(2) with O_CREAT, and O_TRUNC when `truncate`. */
  function Open(s: State, n: FileName, truncate: bool): State {
    var exists_ := n in s.dir && s.dir[n] < |s.data|;
    s.(data := if !exists_ then s.data + [Log([])] else if truncate then s.data[s.dir[n] := Log([])] else s.data,
       dir := if exists_ then s.dir else s.dir[n := |s.data|])
  }

  datatype Rotate = Rotate(openOk: bool, p: Persist, offset: int)

  /** openNewIncrAofForAppend: nothing when AOF is off; a temporary INCR while the first
      rewrite is awaited; else the next INCR, taken into use once the manifest is written. */
  function OpenNewIncr(s: State, r: Rotate): (State, bool) {
    var m := NewIncr(s.am, r.offset);
    var n := if s.mode == WaitRewrite then TempIncrName else IncrName(m.incrSeq);
    var t := Open(s, n, true);
    var created := s.mode != Off && r.openOk;
    var done := created && (s.mode == WaitRewrite || r.p == Written);
    (s.(data := if created then t.data else s.data,
        dir := if created then t.dir else s.dir,
        disk := if created && s.mode == On then DiskAfter(s.disk, m, r.p) else s.disk,
        am := if done && s.mode == On then m.(dirty := false) else s.am,
        fd := if done then Some(t.dir[n]) else s.fd,
        cur := if done then NO_CURSOR else s.cur),
     s.mode == Off || done)
  }

  /** aofAbortWaitRewrite. */
  function AbortWait(s: State): State {
    var w := s.mode == WaitRewrite;
    s.(fd := if w then None else s.fd,
       cur := if w then NO_CURSOR else s.cur,
       buf := if w then [] else s.buf,
       dir := if w then s.dir - {TempIncrName} else s.dir)
  }

  datatype Rewrite = Rewrite(w: Write, r: Rotate, forkOk: bool)

  /** rewriteAppendOnlyFileBackground. */
  function StartRewrite(s: State, rw: Rewrite): (State, bool) {
    if s.child != NoChild || s.backup == Snapshotting || s.backup == Incrementing then (s, false) else
    var (s1, ok) := OpenNewIncr(Flush(s, rw.w), rw.r);
    if !ok || !rw.forkOk then (AbortWait(s1), false)
    else (s1.(child := AofChild(s1.hist)), true)
  }

  function KillAofChild(s: State): State {
    s.(child := if s.child.AofChild? then NoChild else s.child)
  }

  /** startAppendOnly. */
  function StartAof(s: State, rw: Rewrite): (State, bool) {
    var s1 := s.(mode := WaitRewrite);
    if s.child == OtherChild then (s1, true) else
    var (s2, ok) := StartRewrite(KillAofChild(s1), rw);
    if ok then (s2, true) else (s2.(mode := Off), false)
  }

  /** updateCurIncrAofEndOffset: the manifest it leaves in memory before persisting. */
  function EndManifest(s: State, offset: int): AofManifest {
    if s.mode != On then s.am else SetEndOffset(s.am, offset)
  }

  /** A manifest after an attempt to persist it whose failure is ignored. */
  function Persisted(m: AofManifest, p: Persist): AofManifest {
    m.(dirty := m.dirty && p != Written)
  }

  function UpdateEnd(s: State, offset: int, p: Persist): State {
    var m := EndManifest(s, offset);
    var tried := s.mode == On && s.am.incr != [];
    s.(disk := if tried then DiskAfter(s.disk, m, p) else s.disk,
       am := if tried then Persisted(m, p) else s.am)
  }

  datatype Stopping = Stopping(w: Write, offset: int, p: Persist)

  /** stopAppendOnly and backupSetFailed call each other; each call turns AOF off or ends
      the backup in progress, so the calls end. */
  function Rank(s: State): nat {
    (if s.mode == Off then 0 else 1) + (if InProgress(s.backup) then 1 else 0)
  }

  /** stopAppendOnly up to its call of backupSetFailed. */
  function StopFiles(s: State, sp: Stopping): State {
    var s1 := UpdateEnd(Flush(s, sp.w), sp.offset, sp.p);
    var open := s.fd.Some?;
    s.(data := if open then s1.data else s.data,
       disk := if open then s1.disk else s.disk,
       am := if open then s1.am else s.am,
       fd := None,
       cur := NO_CURSOR,
       child := if s.child.AofChild? then NoChild else s.child,
       mode := Off,
       buf := [],
       dir := if s.mode == WaitRewrite then s.dir - {TempIncrName} else s.dir)
  }

  function StopAof(s: State, sp: Stopping): State
    requires s.mode != Off
    decreases Rank(s), 0
  {
    BackupFailed(StopFiles(s, sp), sp)
  }

  /** backupStopTempAofIfNeeded. */
  function StopTempAof(s: State, sp: Stopping): State
    requires !InProgress(s.backup)
    decreases Rank(s), 1
  {
    if s.enabled || s.mode == Off then s else StopAof(s, sp)
  }

  /** Deleting the files of the append-only directory and forgetting the manifest. */
  function RemoveAofDir(s: State): State {
    s.(dir := if s.canRemove then map[] else s.dir,
       am := if s.canRemove then EMPTY else s.am,
       disk := if s.canRemove then None else s.disk)
  }

  /** backupSetFailed. */
  function BackupFailed(s: State, sp: Stopping): State
    decreases Rank(s), 2
  {
    if !InProgress(s.backup) then s else
    var s1 := StopTempAof(s.(backup := Failed), sp);
    RemoveAofDir(s1).(bdir := map[], bBase := None, bIncr := None, canRemove := false)
  }

  /** aofDelHistoryFiles. */
  function DelHistory(s: State, stuck: set<FileName>, p: Persist): State {
    var gone := if s.gcDisabled then {} else UnlinkedNames(s.am.hist, stuck);
    var m := s.am.(hist := StuckHistory(s.am.hist, stuck), dirty := true);
    s.(dir := s.dir - gone,
       disk := if gone == {} then s.disk else DiskAfter(s.disk, m, p),
       am := if gone == {} then s.am else Persisted(m, p))
  }

  // ---------------------------------------------------------------- the end of a rewrite

  datatype Done = Done(
    exitOk: bool, renameBaseOk: bool, rdb: bool, renameIncrOk: bool, offset: int, p: Persist,
    stuck: set<FileName>, p2: Persist, linkOk: bool, sp: Stopping)

  /** The success path of backgroundRewriteDoneHandler: rename the child's file to a new
      BASE, and the temporary INCR to a new INCR if AOF is being switched on; retire the
      rewritten INCRs; persist and install the manifest. On a failure what was created is
      unlinked again. */
  function Install(s: State, d: Done): (State, bool)
    requires s.child.AofChild?
  {
    var wait := s.mode == WaitRewrite;
    var m := if wait then NewIncr(NewBase(s.am, d.rdb), d.offset) else NewBase(s.am, d.rdb);
    var bn := BaseName(m.baseSeq, d.rdb);
    var n := IncrName(m.incrSeq);
    var renamed := d.renameBaseOk && (!wait || (d.renameIncrOk && TempIncrName in s.dir));
    var done := renamed && d.p == Written;
    var m1 := MarkRewritten(m, s.fd.Some?);
    var withBase := s.dir[bn := |s.data|];
    (s.(data := if d.renameBaseOk then s.data + [Snapshot(s.child.snap)] else s.data,
        dir := if done && wait then (withBase - {TempIncrName})[n := s.dir[TempIncrName]]
               else if done then withBase
               else if renamed && wait then s.dir - {bn, n, TempIncrName}
               else if d.renameBaseOk then s.dir - {bn}
               else s.dir,
        disk := if renamed then DiskAfter(s.disk, m1, d.p) else s.disk,
        am := if done then m1.(dirty := false) else s.am),
     done)
  }

  /** backupHandleSnapshotDone. */
  function SnapshotDone(s: State, linkOk: bool, sp: Stopping): State {
    if s.backup != Snapshotting then s
    else if s.am.base.None? then s.(aborted := true)
    else
      var n := s.am.base.value.name;
      if linkOk && n in s.dir && n !in s.bdir
      then s.(bdir := s.bdir[n := s.dir[n]], bBase := Some(n), backup := Incrementing)
      else BackupFailed(s, sp)
  }

  /** backgroundRewriteDoneHandler. */
  function RewriteDone(s: State, d: Done): State {
    if !s.child.AofChild? then s else
    var (s1, ok) := if d.exitOk then Install(s, d) else (s, false);
    if ok then
      var s2 := DelHistory(s1, d.stuck, d.p2);
      SnapshotDone(s2.(child := NoChild, mode := if s.mode == Off then Off else On), d.linkOk, d.sp)
    else
      var s2 := s1.(child := NoChild);
      var s3 := if s.mode == WaitRewrite then s2.(buf := [], dir := s2.dir - {TempIncrName}) else s2;
      if s3.backup == Snapshotting then BackupFailed(s3, d.sp) else s3
  }

  // ---------------------------------------------------------------- BACKUP

  /** backupStartPendingSnapshot. */
  function StartPending(s: State, scheduled: bool, rw: Rewrite, sp: Stopping): State {
    if s.backup != Pending then s
    else if s.child.AofChild? then
      if s.mode != Off then s.(backup := Snapshotting) else s
    else if s.child != NoChild then s
    else
      var (s1, ok) :=
        if s.mode == Off
        then StartAof(s.(canRemove := s.dir == map[] && s.disk.None? && !scheduled), rw)
        else StartRewrite(s, rw);
      if !ok || !s1.child.AofChild? then BackupFailed(s1, sp) else s1.(backup := Snapshotting)
  }

  /** backupStartCommand. */
  function BackupStart(s: State, inExec: bool, scheduled: bool, rw: Rewrite, sp: Stopping): State {
    if InProgress(s.backup) || s.backup == Sealed || s.bdir != map[] then s else
    var s1 := s.(backup := Pending, bBase := None, bIncr := None, canRemove := false);
    if inExec then s1 else StartPending(s1, scheduled, rw, sp)
  }

  datatype Sealing = Sealing(
    w: Write, fsyncOk: bool, offset: int, p: Persist, linkOk: bool, manifestOk: bool, r: Rotate, sp: Stopping)

  /** The assertions of backupSealCommand. */
  predicate SealAsserts(s: State) {
    && s.bBase.Some?
    && s.am.base.Some? && s.am.base.value.name == s.bBase.value
    && |s.am.incr| == 1
  }

  /** backupSealCommand. */
  function Seal(s: State, q: Sealing): State {
    if s.backup != Incrementing then s
    else if !SealAsserts(s) then s.(aborted := true)
    else
      var s1 := Flush(s, q.w);
      if !q.fsyncOk then BackupFailed(s1, q.sp) else
      var s2 := UpdateEnd(s1, q.offset, q.p);
      var n := s.am.incr[0].name;
      if !q.linkOk || n !in s2.dir || n in s2.bdir then BackupFailed(s2, q.sp) else
      var s3 := s2.(bdir := s2.bdir[n := s2.dir[n]], bIncr := Some(n));
      if !q.manifestOk then BackupFailed(s3, q.sp)
      else if !s.enabled then
        RemoveAofDir(StopTempAof(s3.(backup := Sealed, sealedHist := s.hist), q.sp))
      else
        var (s4, ok) := OpenNewIncr(s3, q.r);
        if ok then s4.(backup := Sealed, sealedHist := s.hist) else BackupFailed(s4, q.sp)
  }

  /** backupCleanupCommand, and the expiry of a sealed backup in backupCron. */
  function Cleanup(s: State): State {
    if InProgress(s.backup) then s
    else s.(backup := Idle, bdir := map[], bBase := None, bIncr := None, canRemove := false)
  }

  // ---------------------------------------------------------------- loading

  ghost predicate Present(infos: seq<AofInfo>, dir: map<FileName, Inode>, data: seq<Content>) {
    forall i :: 0 <= i < |infos| ==>
      var n := infos[i].name; n in dir && dir[n] < |data| && data[dir[n]].Log?
  }

  /** The contents of the INCR files, in order. */
  ghost function Logs(infos: seq<AofInfo>, dir: map<FileName, Inode>, data: seq<Content>): (r: seq<seq<byte>>)
    requires Present(infos, dir, data)
    ensures |r| == |infos|
    ensures forall i :: 0 <= i < |r| ==> r[i] == data[dir[infos[i].name]].bytes
  {
    seq(|infos|, i requires 0 <= i < |infos| => data[dir[infos[i].name]].bytes)
  }

  ghost predicate BasePresent(b: Option<AofInfo>, dir: map<FileName, Inode>, data: seq<Content>) {
    b.Some? ==> var n := b.value.name; n in dir && dir[n] < |data| && data[dir[n]].Snapshot?
  }

  ghost function BaseCmds(b: Option<AofInfo>, dir: map<FileName, Inode>, data: seq<Content>): seq<Command>
    requires BasePresent(b, dir, data)
  {
    if b.Some? then data[dir[b.value.name]].cmds else []
  }

  /** loadAppendOnlyFiles: a missing file is fatal, and so is a short read before the last file. */
  ghost function LoadAll(m: AofManifest, dir: map<FileName, Inode>, data: seq<Content>): Option<seq<Command>> {
    if !BasePresent(m.base, dir, data) || !Present(m.incr, dir, data) then None else
    match LoadLogs(Logs(m.incr, dir, data))
    case None => None
    case Some(r) => Some(BaseCmds(m.base, dir, data) + r)
  }

  function DiskManifest(s: State): AofManifest {
    if s.disk.Some? then s.disk.value else EMPTY
  }

  /** The disk as a crash during a write finds it: `k` bytes of the buffer went out. */
  function Torn(s: State, k: nat): seq<Content> {
    if s.fd.Some? && k <= |s.buf| then Store(s.data, s.fd.value, AofFlush.Put(Descriptor(s), s.buf[..k]).contents)
    else s.data
  }

  // ---------------------------------------------------------------- restart

  /** The last INCR as the loader leaves it. */
  ghost function RecoverLast(m: AofManifest, dir: map<FileName, Inode>, data: seq<Content>): seq<Content>
    requires Present(m.incr, dir, data)
  {
    if m.incr == [] then data else
    var i := dir[m.incr[|m.incr| - 1].name];
    data[i := Log(Recover(data[i].bytes).file)]
  }

  /** Forcing a BASE when the server starts with neither BASE nor INCR. */
  function ForceBase(s: State, rdb: bool): State {
    if s.am.base.Some? || s.am.incr != [] then s else
    var m := NewBase(s.am, rdb);
    s.(am := m, dir := s.dir[BaseName(m.baseSeq, rdb) := |s.data|], data := s.data + [Snapshot(s.hist)])
  }

  /** aofOpenIfNeededOnServerStart, with AOF on: the last INCR is opened with O_APPEND; the manifest
      must be written or the process exits. */
  function OpenOnStart(s: State, rdb: bool, offset: int): State {
    var s1 := ForceBase(s, rdb);
    var m := if s.am.incr == [] then NewIncr(s1.am, offset) else s1.am;
    var n := m.incr[|m.incr| - 1].name;
    var s2 := Open(s1, n, false);
    var i := s2.dir[n];
    var size := if i < |s2.data| && s2.data[i].Log? then |s2.data[i].bytes| else 0;
    s2.(am := m.(dirty := false), disk := DiskAfter(s.disk, m, Written), fd := Some(i), cur := Cursor(true, 0, size))
  }

  datatype Restarting = Restarting(
    torn: nat, enabled: bool, rdbHist: seq<Command>, rdb: bool, offset: int, stuck: set<FileName>, p: Persist)

  /** What a new process finds: memory is gone, the disk is as the crash left it. */
  function Rebooted(s: State, r: Restarting): State {
    s.(data := Torn(s, r.torn), am := Reloaded(DiskManifest(s)), hist := r.rdbHist,
       mode := Off, enabled := r.enabled, fd := None, cur := NO_CURSOR, buf := [], child := NoChild,
       backup := Idle, bBase := None, bIncr := None, canRemove := false)
  }

  /** A crash in the middle of a write, then a new process on the same disk: with AOF on it
      loads the files, recovers the last INCR and goes on appending to it. */
  ghost function Restart(s: State, r: Restarting): State {
    var s0 := Rebooted(s, r);
    if !r.enabled then DelHistory(s0, r.stuck, r.p) else
    match LoadAll(s0.am, s0.dir, s0.data)
    case None => s0.(aborted := true)
    case Some(h) =>
      var s1 := s0.(data := RecoverLast(s0.am, s0.dir, s0.data), hist := h, mode := On);
      DelHistory(OpenOnStart(s1, r.rdb, r.offset), r.stuck, r.p)
  }

  /** How far backgroundRewriteDoneHandler got: the BASE renamed, the temporary INCR as well, or the
      manifest written too. */
  datatype Stage = BaseRenamed | IncrRenamed | ManifestWritten

  /** What is left of a process that dies between two system calls. */
  function Dead(s: State): State {
    s.(mode := Off, enabled := false, fd := None, cur := NO_CURSOR, buf := [], child := NoChild,
       backup := Idle, bBase := None, bIncr := None, canRemove := false)
  }

  /** The disk when the process dies inside backgroundRewriteDoneHandler, before anything is unlinked. */
  function Interrupted(s: State, d: Done, stage: Stage): State
    requires s.child.AofChild?
  {
    var withBase := s.dir[BaseName(s.am.baseSeq + 1, d.rdb) := |s.data|];
    var moved := stage == IncrRenamed && s.mode == WaitRewrite && TempIncrName in s.dir;
    if stage == ManifestWritten then
      Dead(Install(s, d.(renameBaseOk := true, renameIncrOk := true, p := Written)).0)
    else
      Dead(s.(data := s.data + [Snapshot(s.child.snap)],
              dir := if moved then (withBase - {TempIncrName})[IncrName(s.am.incrSeq + 1) := s.dir[TempIncrName]]
                     else withBase))
  }

  // ---------------------------------------------------------------- runs

  datatype Event =
    | Execute(c: Command)                                     // a write command runs
    | FlushBuf(w: Write)
    | BgRewrite(rw: Rewrite)
    | ChildExit(d: Done)
    | SetEnabled(on: bool, rw: Rewrite, sp: Stopping)         // CONFIG SET appendonly
    | SetGc(disabled: bool, stuck: set<FileName>, p: Persist) // CONFIG SET aof-disable-auto-gc
    | StartBackup(inExec: bool, scheduled: bool, rw: Rewrite, sp: Stopping)
    | BackupCron(scheduled: bool, rw: Rewrite, sp: Stopping)
    | SealBackup(q: Sealing)
    | AbortBackup(sp: Stopping)
    | CleanupBackup
    | OtherFork
    | OtherExit
    | Crash(r: Restarting)
    | CrashInstalling(d: Done, stage: Stage, r: Restarting)   // a crash inside ChildExit

  predicate IsCrash(e: Event) {
    e.Crash? || e.CrashInstalling?
  }

  /** feedAppendOnlyFile after the command has run. */
  function Feed(s: State, c: Command): State {
    var fed := s.mode == On || (s.mode == WaitRewrite && s.child.AofChild?);
    s.(hist := s.hist + [c], buf := if fed then s.buf + Encode(c) else s.buf)
  }

  /** updateAppendonly. */
  function ChangeEnabled(s: State, on: bool, rw: Rewrite, sp: Stopping): State {
    var s1 := s.(enabled := on);
    if !on && s.mode != Off then StopAof(s1, sp)
    else if on && s.mode == Off then
      var (s2, ok) := StartAof(s1, rw);
      if ok then s2 else s2.(enabled := false)
    else s1
  }

  ghost function Step(s: State, e: Event): State {
    match e
    case Execute(c) => Feed(s, c)
    case FlushBuf(w) => Flush(s, w)
    case BgRewrite(rw) => StartRewrite(s, rw).0
    case ChildExit(d) => RewriteDone(s, d)
    case SetEnabled(on, rw, sp) => ChangeEnabled(s, on, rw, sp)
    case SetGc(disabled, stuck, p) => DelHistory(s.(gcDisabled := disabled), stuck, p)
    case StartBackup(inExec, scheduled, rw, sp) => BackupStart(s, inExec, scheduled, rw, sp)
    case BackupCron(scheduled, rw, sp) => StartPending(s, scheduled, rw, sp)
    case SealBackup(q) => Seal(s, q)
    case AbortBackup(sp) => BackupFailed(s, sp)
    case CleanupBackup => Cleanup(s)
    case OtherFork => if s.child == NoChild then s.(child := OtherChild) else s
    case OtherExit => if s.child == OtherChild then s.(child := NoChild) else s
    case Crash(r) => Restart(s, r)
    case CrashInstalling(d, stage, r) => if s.child.AofChild? then Restart(Interrupted(s, d, stage), r) else s
  }

  ghost function RunEvents(s: State, es: seq<Event>): State
    decreases |es|
  {
    if es == [] then s else RunEvents(Step(s, es[0]), es[1..])
  }

  /** A server that has never written an append-only file; its dataset may come from an RDB file. */
  function Init(hist: seq<Command>): State {
    State(map[], map[], [], None, hist, EMPTY, Off, false, None, NO_CURSOR, [], NoChild, false,
          Idle, None, None, false, [], false)
  }
}
