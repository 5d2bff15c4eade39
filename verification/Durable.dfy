/** How far the AOF is durable: the main thread's flushes against the fsync worker, one shared
    access at a time. */
module Durable {

  datatype Policy = Always | EverySec | Never

  /** BIO_AOF_FSYNC and BIO_CLOSE_AOF jobs; `file` numbers the INCR files opened so far. */
  datatype Job = FsyncJob(file: nat, offset: nat) | CloseJob(file: nat, offset: nat)

  datatype WorkerPc = Waiting | Took | Fsynced | Published

  /** Where the main thread stands inside flushAppendOnlyFile or CONFIG SET appendfsync. */
  datatype MainPc =
    | Idle
    | Publishing                               // nothing to write or fsync: before 1573
    | Writing(inProgress: bool)                // before aofWrite
    | Settling(inProgress: bool, n: nat)       // `n` bytes written, before the result is handled
    | Trying(inProgress: bool)                 // at try_fsync
    | Synced                                   // after the fsync of policy always, before 1756
    | Draining                                 // in bioDrainWorker

  datatype State = State(
    tags: seq<nat>,        // for every byte fed: the replication offset of its command
    files: seq<nat>,       // where each INCR file starts among these bytes
    written: nat,          // bytes handed to the system
    durable: set<nat>,     // bytes known to be on disk
    incrSize: nat,         // aof_last_incr_size
    fsyncOffset: nat,      // aof_last_incr_fsync_offset
    replOff: nat,          // master_repl_offset
    pending: nat,          // fsynced_reploff_pending
    policy: Policy,
    main: MainPc,
    queue: seq<Job>,       // the worker's list; the head is the job it has taken
    fsyncJobs: nat,        // bio_jobs_counter[BIO_AOF_FSYNC]
    worker: WorkerPc,
    exited: bool)

  datatype Event =
    | Feed(bytes: nat, advance: nat)
    | SetPolicy(policy: Policy)
    | DrainDone
    | Rotate
    | FlushStart(postpone: bool, elapsed: bool)
    | WriteSome(n: nat)
    | Settle(truncateOk: bool)
    | TryFsync(skip: bool, elapsed: bool)
    | MainPublish
    | WorkerNext

  function Last(s: State): nat {
    if s.files == [] then 0 else |s.files| - 1
  }

  function Start(s: State, k: nat): nat {
    if k < |s.files| then s.files[k] else 0
  }

  function End(s: State, k: nat): nat {
    if k + 1 < |s.files| then s.files[k + 1] else s.written
  }

  /** What the current INCR file holds according to aof_last_incr_size. */
  function Stable(s: State): nat {
    Start(s, Last(s)) + s.incrSize
  }

  predicate Between(i: nat, lo: nat, hi: nat) {
    lo <= i < hi
  }

  function Bytes(lo: nat, hi: nat): set<nat> {
    set i: nat | 0 <= i < hi && Between(i, lo, hi)
  }

  function Copies(n: nat, x: nat): seq<nat> {
    seq(n, _ => x)
  }

  predicate BufEmpty(s: State) {
    s.written >= |s.tags|
  }

  // ---------------------------------------------------------------- main thread

  /** feedAppendOnlyFile, then replicationFeedSlaves, which always advances the offset. */
  function FeedStep(s: State, bytes: nat, advance: nat): State {
    if s.main != Idle || advance == 0 then s else
    s.(tags := s.tags + Copies(bytes, s.replOff + advance), replOff := s.replOff + advance)
  }

  /** openNewIncrAofForAppend. */
  function RotateStep(s: State): State {
    if s.main != Idle then s else
    s.(files := s.files + [s.written], incrSize := 0, fsyncOffset := 0,
       queue := s.queue + [CloseJob(Last(s), s.replOff)])
  }

  /** flushAppendOnlyFile up to its first write or publication. */
  function FlushPc(s: State, postpone: bool, elapsed: bool): MainPc {
    var inProgress := s.fsyncJobs != 0;
    if BufEmpty(s) then
      if s.fsyncOffset == s.incrSize then if inProgress then Idle else Publishing
      else if s.policy.EverySec? && elapsed && !inProgress then Trying(false)
      else if s.policy.Always? then Trying(false)
      else Idle
    else if s.policy.EverySec? && inProgress && postpone then Idle
    else Writing(s.policy.EverySec? && inProgress)
  }

  function WriteStep(s: State, n: nat): State {
    if !s.main.Writing? || s.written + n > |s.tags| then s else
    s.(written := s.written + n, main := Settling(s.main.inProgress, n))
  }

  /** The outcome of aofWrite: complete, undone by ftruncate, or kept as it is. */
  function SettleStep(s: State, truncateOk: bool): State {
    if !s.main.Settling? then s else
    var n := s.main.n;
    var full := BufEmpty(s);
    var undone := !full && n > 0 && truncateOk;
    var exits := !full && s.policy.Always?;
    var kept := if undone || exits then 0 else n;
    s.(written := if undone then Stable(s) else s.written,
       durable := if undone then set i | i in s.durable && i < Stable(s) else s.durable,
       incrSize := s.incrSize + kept,
       main := if full then Trying(s.main.inProgress)
               else if exits then Settling(s.main.inProgress, if undone then 0 else n)
               else Idle,
       exited := exits)
  }

  function TryStep(s: State, skip: bool, elapsed: bool): State {
    if !s.main.Trying? then s
    else if !skip && s.policy.Always? then
      s.(durable := s.durable + Bytes(Start(s, Last(s)), s.written), main := Synced)
    else if !skip && s.policy.EverySec? && elapsed && !s.main.inProgress then
      s.(queue := s.queue + [FsyncJob(Last(s), s.replOff)], fsyncJobs := s.fsyncJobs + 1,
         fsyncOffset := s.incrSize, main := Idle)
    else s.(main := Idle)
  }

  function PublishStep(s: State): State {
    if !s.main.Publishing? && !s.main.Synced? then s else
    s.(pending := s.replOff, fsyncOffset := if s.main.Synced? then s.incrSize else s.fsyncOffset, main := Idle)
  }

  // ---------------------------------------------------------------- worker

  function WorkerStep(s: State): State {
    if s.queue == [] then s else
    var job := s.queue[0];
    match s.worker
    case Waiting => s.(worker := Took)
    case Took => s.(durable := s.durable + Bytes(Start(s, job.file), End(s, job.file)), worker := Fsynced)
    case Fsynced => s.(pending := job.offset, worker := Published)
    case Published =>
      s.(queue := s.queue[1..], worker := Waiting,
         fsyncJobs := if job.FsyncJob? && s.fsyncJobs > 0 then s.fsyncJobs - 1 else s.fsyncJobs)
  }

  function Step(s: State, e: Event): State {
    if s.exited then s else
    match e
    case Feed(bytes, advance) => FeedStep(s, bytes, advance)
    case SetPolicy(p) => if s.main.Idle? then s.(policy := p, main := if p.Always? then Draining else Idle) else s
    case DrainDone => if s.main.Draining? && s.queue == [] then s.(main := Idle) else s
    case Rotate => RotateStep(s)
    case FlushStart(postpone, elapsed) => if s.main.Idle? then s.(main := FlushPc(s, postpone, elapsed)) else s
    case WriteSome(n) => WriteStep(s, n)
    case Settle(truncateOk) => SettleStep(s, truncateOk)
    case TryFsync(skip, elapsed) => TryStep(s, skip, elapsed)
    case MainPublish => PublishStep(s)
    case WorkerNext => WorkerStep(s)
  }

  function Run(s: State, es: seq<Event>): State
    decreases |es|
  {
    if es == [] then s else Run(Step(s, es[0]), es[1..])
  }

  /** An INCR file just opened, with nothing outstanding. */
  function Opened(replOff: nat, policy: Policy): State {
    State([], [0], 0, {}, 0, 0, replOff, 0, policy, Idle, [], 0, Waiting, false)
  }

  // ---------------------------------------------------------------- what must hold

  /** Every byte of a command at or before offset `o` is on disk, and in the part of the file a
      later ftruncate keeps. */
  ghost predicate Safe(s: State, o: nat) {
    forall i :: 0 <= i < |s.tags| && s.tags[i] <= o ==> i in s.durable && i < Stable(s)
  }

  /** Jobs whose fsync has not happened yet. */
  function Unsynced(s: State): seq<Job> {
    if (s.worker.Fsynced? || s.worker.Published?) && s.queue != [] then s.queue[1..] else s.queue
  }

  function Closes(q: seq<Job>): nat {
    if q == [] then 0 else (if q[0].CloseJob? then 1 else 0) + Closes(q[1..])
  }

  function Fsyncs(q: seq<Job>): nat {
    if q == [] then 0 else (if q[0].FsyncJob? then 1 else 0) + Fsyncs(q[1..])
  }

  /** Whether an fsync of file `k` is among the jobs. */
  predicate Awaits(q: seq<Job>, k: nat) {
    q != [] && ((q[0].FsyncJob? && q[0].file == k) || Awaits(q[1..], k))
  }

  predicate Layout(s: State) {
    && s.files != []
    && (forall k :: 0 <= k < |s.files| - 1 ==> s.files[k] <= s.files[k + 1])
    && Stable(s) + (if s.main.Settling? then s.main.n else 0) == s.written <= |s.tags|
    && (s.main.Trying? || s.main.Publishing? || s.main.Synced? ==> s.written == |s.tags|)
    && s.fsyncOffset <= s.incrSize
    && (forall i :: i in s.durable ==> i < s.written)
  }

  ghost predicate Offsets(s: State) {
    && s.pending <= s.replOff
    && (forall i :: 0 <= i < |s.tags| ==> s.tags[i] <= s.replOff)
    && (forall k :: 0 <= k < |s.queue| ==> s.queue[k].offset <= s.replOff)
  }

  /** The jobs in the list are the closes of the last files but the current one, in order, with
      the fsyncs of each file before its close; a job's offset only covers bytes of its file and
      of earlier ones. */
  ghost predicate JobOk(s: State, q: seq<Job>) {
    q != [] ==>
      && q[0].file + Closes(q) == Last(s)
      && forall i :: 0 <= i < |s.tags| && s.tags[i] <= q[0].offset ==> i < Stable(s) && i < End(s, q[0].file)
  }

  ghost predicate JobsOk(s: State) {
    && Closes(Unsynced(s)) <= Last(s)
    && forall k :: 0 <= k <= |Unsynced(s)| ==> JobOk(s, Unsynced(s)[k..])
  }

  /** The files whose close has been fsynced are on disk. */
  ghost predicate OldDurable(s: State) {
    Closes(Unsynced(s)) <= Last(s) &&
    forall i: nat :: i < Start(s, Last(s) - Closes(Unsynced(s))) ==> i in s.durable
  }

  /** What aof_last_incr_fsync_offset claims is on disk or about to be fsynced. */
  ghost predicate CurDurable(s: State) {
    Awaits(Unsynced(s), Last(s)) ||
    forall i: nat :: Start(s, Last(s)) <= i < Start(s, Last(s)) + s.fsyncOffset ==> i in s.durable
  }

  ghost predicate Counters(s: State) {
    && s.fsyncJobs == Fsyncs(s.queue)
    && (s.main.Publishing? ==> s.fsyncJobs == 0 && s.fsyncOffset == s.incrSize)
    && (s.main.Synced? ==> forall i: nat :: Start(s, Last(s)) <= i < s.written ==> i in s.durable)
    && (s.queue == [] ==> s.worker.Waiting?)
  }

  ghost predicate Progress(s: State) {
    (s.worker.Fsynced? && s.queue != [] ==> Safe(s, s.queue[0].offset)) && Safe(s, s.pending)
  }

  ghost predicate Inv(s: State) {
    && Layout(s) && Offsets(s) && JobsOk(s) && OldDurable(s) && CurDurable(s) && Counters(s) && Progress(s)
  }

  lemma OpenedInv(replOff: nat, policy: Policy)
    ensures Inv(Opened(replOff, policy))
  {
  }

  // ---------------------------------------------------------------- lists of jobs

  lemma {:induction false} ClosesAdd(q: seq<Job>, j: Job)
    ensures Closes(q + [j]) == Closes(q) + (if j.CloseJob? then 1 else 0)
    ensures Fsyncs(q + [j]) == Fsyncs(q) + (if j.FsyncJob? then 1 else 0)
  {
    if q == [] {
      assert [j][1..] == [];
    } else {
      assert (q + [j])[1..] == q[1..] + [j];
      ClosesAdd(q[1..], j);
    }
  }

  lemma {:induction false} AwaitsAdd(q: seq<Job>, j: Job, k: nat)
    ensures Awaits(q + [j], k) <==> Awaits(q, k) || (j.FsyncJob? && j.file == k)
  {
    if q == [] {
      assert [j][1..] == [];
    } else {
      assert (q + [j])[1..] == q[1..] + [j];
      AwaitsAdd(q[1..], j, k);
    }
  }

  lemma {:induction false} AwaitsCounted(q: seq<Job>, k: nat)
    requires Fsyncs(q) == 0
    ensures !Awaits(q, k)
  {
    if q != [] { AwaitsCounted(q[1..], k); }
  }

  lemma {:induction false} ClosesSuffix(q: seq<Job>, k: nat)
    requires k <= |q|
    ensures Closes(q[k..]) <= Closes(q) && Fsyncs(q[k..]) <= Fsyncs(q)
    decreases k
  {
    if k > 0 {
      ClosesSuffix(q[1..], k - 1);
      assert q[1..][k - 1..] == q[k..];
    } else {
      assert q[0..] == q;
    }
  }

  lemma NoJobs(q: seq<Job>)
    requires Closes(q) == 0 && Fsyncs(q) == 0
    ensures q == []
  {
  }

  lemma UnsyncedParts(s: State)
    ensures Closes(Unsynced(s)) <= Closes(s.queue) && Fsyncs(Unsynced(s)) <= Fsyncs(s.queue)
  {
    if s.queue != [] { ClosesSuffix(s.queue, 1); }
  }

  lemma {:induction false} FilesSorted(s: State, a: nat, b: nat)
    requires Layout(s) && a <= b < |s.files|
    ensures s.files[a] <= s.files[b]
    decreases b
  {
    if a < b { FilesSorted(s, a, b - 1); }
  }

  // ---------------------------------------------------------------- steps that leave the list alone

  /** Only later commands, more of the file and more of it on disk, up to the stable part. */
  ghost predicate Extends(s: State, t: State) {
    && t.files == s.files && t.queue == s.queue && t.worker == s.worker
    && s.tags <= t.tags && (forall i :: |s.tags| <= i < |t.tags| ==> t.tags[i] > s.replOff)
    && s.replOff <= t.replOff && Stable(s) <= Stable(t) <= t.written
    && (forall i :: i in s.durable && i < Stable(s) ==> i in t.durable)
  }

  lemma ExtendsSafe(s: State, t: State, o: nat)
    requires Extends(s, t) && Safe(s, o) && o <= s.replOff
    ensures Safe(t, o)
  {
  }

  lemma ExtendsJob(s: State, t: State, q: seq<Job>)
    requires Extends(s, t) && JobOk(s, q) && (q != [] ==> q[0].offset <= s.replOff)
    ensures JobOk(t, q)
  {
  }

  lemma ExtendsJobs(s: State, t: State)
    requires Extends(s, t) && JobsOk(s) && Offsets(s)
    ensures JobsOk(t)
  {
    hide JobOk, Extends;
    assert Unsynced(t) == Unsynced(s) && Last(t) == Last(s) by { ExtendsList(s, t); }
    forall k | 0 <= k <= |Unsynced(t)|
      ensures JobOk(t, Unsynced(t)[k..])
    {
      ExtendsJob(s, t, Unsynced(s)[k..]);
    }
  }

  lemma ExtendsList(s: State, t: State)
    requires Extends(s, t)
    ensures Unsynced(t) == Unsynced(s) && Last(t) == Last(s) && t.files == s.files
  {
  }

  lemma ExtendsOld(s: State, t: State)
    requires Extends(s, t) && Layout(s) && OldDurable(s)
    ensures OldDurable(t)
  {
    FilesSorted(s, Last(s) - Closes(Unsynced(s)), Last(s));
  }

  lemma ExtendsCur(s: State, t: State)
    requires Extends(s, t) && Layout(s) && CurDurable(s) && t.fsyncOffset == s.fsyncOffset
    ensures CurDurable(t)
  {
    hide Awaits;
  }

  lemma ExtendsInv(s: State, t: State)
    requires Inv(s) && Extends(s, t) && t.fsyncOffset == s.fsyncOffset && t.pending == s.pending
    requires Layout(t) && Offsets(t) && Counters(t)
    ensures Inv(t)
  {
    ExtendsList(s, t);
    ExtendsSafe(s, t, s.pending);
    if s.worker.Fsynced? && s.queue != [] { ExtendsSafe(s, t, s.queue[0].offset); }
    ExtendsJobs(s, t);
    ExtendsOld(s, t);
    ExtendsCur(s, t);
    hide Extends, Layout, Offsets, JobsOk, OldDurable, CurDurable, Counters, Safe;
  }

  lemma FeedExtends(s: State, bytes: nat, advance: nat)
    requires Layout(s)
    ensures Extends(s, FeedStep(s, bytes, advance)) && Layout(FeedStep(s, bytes, advance))
  {
  }

  lemma FeedInv(s: State, bytes: nat, advance: nat)
    requires Inv(s)
    ensures Inv(FeedStep(s, bytes, advance))
  {
    hide Extends, Layout, JobsOk, OldDurable, CurDurable, Progress;
    var t := FeedStep(s, bytes, advance);
    FeedExtends(s, bytes, advance);
    assert Offsets(t) && Counters(t);
    ExtendsInv(s, t);
  }

  lemma FlushInv(s: State, postpone: bool, elapsed: bool)
    requires Inv(s) && s.main.Idle?
    ensures Inv(s.(main := FlushPc(s, postpone, elapsed)))
  {
    var t := s.(main := FlushPc(s, postpone, elapsed));
    assert Extends(s, t) && Layout(t) && Offsets(t) && Counters(t);
    hide Extends, Layout, Offsets, JobsOk, OldDurable, CurDurable, Counters, Progress;
    ExtendsInv(s, t);
  }

  lemma WriteInv(s: State, n: nat)
    requires Inv(s)
    ensures Inv(WriteStep(s, n))
  {
    var t := WriteStep(s, n);
    assert Extends(s, t) && Layout(t) && Offsets(t) && Counters(t);
    hide Extends, Layout, Offsets, JobsOk, OldDurable, CurDurable, Counters, Progress;
    ExtendsInv(s, t);
  }

  lemma PolicyInv(s: State, p: Policy, m: MainPc)
    requires Inv(s) && (s.main.Idle? || s.main.Draining?) && (m.Idle? || m.Draining?)
    ensures Inv(s.(policy := p, main := m))
  {
    var t := s.(policy := p, main := m);
    assert Extends(s, t) && Layout(t) && Offsets(t) && Counters(t);
    hide Extends, Layout, Offsets, JobsOk, OldDurable, CurDurable, Counters, Progress;
    ExtendsInv(s, t);
  }

  lemma SettleExtends(s: State, truncateOk: bool)
    requires Layout(s)
    ensures Extends(s, SettleStep(s, truncateOk)) && Layout(SettleStep(s, truncateOk))
  {
  }

  lemma SettleInv(s: State, truncateOk: bool)
    requires Inv(s)
    ensures Inv(SettleStep(s, truncateOk))
  {
    hide Extends, Layout, JobsOk, OldDurable, CurDurable, Progress;
    var t := SettleStep(s, truncateOk);
    SettleExtends(s, truncateOk);
    assert Offsets(t) && Counters(t);
    ExtendsInv(s, t);
  }

  lemma TryExtends(s: State)
    requires Layout(s) && s.main.Trying?
    ensures var t := s.(durable := s.durable + Bytes(Start(s, Last(s)), s.written), main := Synced);
            Extends(s, t) && Layout(t) && forall i: nat :: Start(s, Last(s)) <= i < s.written ==> i in t.durable
  {
    var t := s.(durable := s.durable + Bytes(Start(s, Last(s)), s.written), main := Synced);
    assert forall i: nat :: Start(s, Last(s)) <= i < s.written ==> Between(i, Start(s, Last(s)), s.written);
  }

  lemma AlwaysInv(s: State)
    requires Inv(s) && s.main.Trying?
    ensures Inv(s.(durable := s.durable + Bytes(Start(s, Last(s)), s.written), main := Synced))
  {
    hide Extends, Layout, JobsOk, OldDurable, CurDurable, Progress, Bytes;
    var t := s.(durable := s.durable + Bytes(Start(s, Last(s)), s.written), main := Synced);
    TryExtends(s);
    assert Offsets(t) && Counters(t);
    ExtendsInv(s, t);
  }

  lemma SkipInv(s: State)
    requires Inv(s)
    ensures Inv(s.(main := if s.main.Settling? then s.main else Idle))
  {
    var t := s.(main := if s.main.Settling? then s.main else Idle);
    assert Extends(s, t) && Layout(t) && Offsets(t) && Counters(t);
    hide Extends, Layout, Offsets, JobsOk, OldDurable, CurDurable, Counters, Progress;
    ExtendsInv(s, t);
  }

  // ---------------------------------------------------------------- submitting a job

  lemma UnsyncedAdd(s: State, t: State, j: Job)
    requires t.queue == s.queue + [j] && t.worker == s.worker && (s.queue == [] ==> s.worker.Waiting?)
    ensures Unsynced(t) == Unsynced(s) + [j]
  {
  }

  /** BIO_AOF_FSYNC for the current file. */
  function Submitted(s: State): State {
    s.(queue := s.queue + [FsyncJob(Last(s), s.replOff)], fsyncJobs := s.fsyncJobs + 1,
       fsyncOffset := s.incrSize, main := Idle)
  }

  lemma SubmittedSuffix(s: State, q: seq<Job>)
    requires Layout(s) && s.main.Trying? && JobOk(s, q)
    ensures JobOk(Submitted(s), q + [FsyncJob(Last(s), s.replOff)])
  {
    var t, j := Submitted(s), FsyncJob(Last(s), s.replOff);
    ClosesAdd(q, j);
    assert Stable(t) == Stable(s) == |s.tags| && End(t, Last(s)) == s.written;
    if q != [] {
      assert (q + [j])[0] == q[0] && End(t, q[0].file) == End(s, q[0].file);
    }
  }

  lemma SubmittedJob(s: State, k: nat)
    requires Layout(s) && JobsOk(s) && Counters(s) && s.main.Trying?
    requires k <= |Unsynced(Submitted(s))|
    ensures JobOk(Submitted(s), Unsynced(Submitted(s))[k..])
  {
    var t, u, j := Submitted(s), Unsynced(s), FsyncJob(Last(s), s.replOff);
    UnsyncedAdd(s, t, j);
    hide Layout, Submitted, Unsynced;
    if k <= |u| {
      assert (u + [j])[k..] == u[k..] + [j];
      SubmittedSuffix(s, u[k..]);
    } else {
      assert (u + [j])[k..] == [];
    }
  }

  lemma SubmittedJobs(s: State)
    requires Layout(s) && Offsets(s) && JobsOk(s) && Counters(s) && s.main.Trying?
    ensures JobsOk(Submitted(s))
  {
    var t, j := Submitted(s), FsyncJob(Last(s), s.replOff);
    UnsyncedAdd(s, t, j);
    ClosesAdd(Unsynced(s), j);
    hide JobOk, Submitted, Layout;
    forall k | 0 <= k <= |Unsynced(t)|
      ensures JobOk(t, Unsynced(t)[k..])
    {
      SubmittedJob(s, k);
    }
  }

  lemma SubmitInv(s: State)
    requires Inv(s) && s.main.Trying?
    ensures Inv(Submitted(s))
  {
    hide JobsOk;
    var t, j := Submitted(s), FsyncJob(Last(s), s.replOff);
    SubmittedJobs(s);
    UnsyncedAdd(s, t, j);
    ClosesAdd(Unsynced(s), j);
    ClosesAdd(s.queue, j);
    AwaitsAdd(Unsynced(s), j, Last(s));
    assert OldDurable(t) && CurDurable(t);
  }

  lemma RotatedJob(s: State, k: nat)
    requires Layout(s) && Offsets(s) && JobsOk(s) && Counters(s) && s.main.Idle? && BufEmpty(s)
    requires k <= |Unsynced(RotateStep(s))|
    ensures JobOk(RotateStep(s), Unsynced(RotateStep(s))[k..])
  {
    var t, u, j := RotateStep(s), Unsynced(s), CloseJob(Last(s), s.replOff);
    UnsyncedAdd(s, t, j);
    if k <= |u| {
      assert (u + [j])[k..] == u[k..] + [j];
      ClosesAdd(u[k..], j);
      assert JobOk(s, u[k..]);
      if k == |u| { assert Closes(u[k..]) == 0; }
    } else {
      assert (u + [j])[k..] == [];
    }
  }

  lemma RotatedJobs(s: State)
    requires Layout(s) && Offsets(s) && JobsOk(s) && Counters(s) && s.main.Idle? && BufEmpty(s)
    ensures JobsOk(RotateStep(s))
  {
    var t, j := RotateStep(s), CloseJob(Last(s), s.replOff);
    UnsyncedAdd(s, t, j);
    ClosesAdd(Unsynced(s), j);
    assert Last(t) == Last(s) + 1;
    hide JobOk, RotateStep, Layout;
    forall k | 0 <= k <= |Unsynced(t)|
      ensures JobOk(t, Unsynced(t)[k..])
    {
      RotatedJob(s, k);
    }
  }

  /** Opening a new INCR keeps the invariant once the buffer has been written out. */
  lemma RotateInv(s: State)
    requires Inv(s) && s.main.Idle? && BufEmpty(s)
    ensures Inv(RotateStep(s))
  {
    hide JobsOk;
    var t, j := RotateStep(s), CloseJob(Last(s), s.replOff);
    RotatedJobs(s);
    UnsyncedAdd(s, t, j);
    ClosesAdd(Unsynced(s), j);
    ClosesAdd(s.queue, j);
    assert Last(t) == Last(s) + 1 && Stable(t) == Stable(s) == s.written;
    assert Closes(Unsynced(s)) <= Last(s);
    assert OldDurable(t) && CurDurable(t);
  }

  // ---------------------------------------------------------------- publishing

  /** Nothing outstanding for earlier files: everything written there is on disk. */
  lemma NoCloses(s: State)
    requires OldDurable(s) && Closes(s.queue) == 0
    ensures forall i: nat :: i < Start(s, Last(s)) ==> i in s.durable
  {
    UnsyncedParts(s);
  }

  /** The main thread publishes the current offset only when it is safe, if no close job is
      outstanding. */
  lemma PublishInv(s: State)
    requires Inv(s) && Closes(s.queue) == 0 && (s.main.Publishing? || s.main.Synced?)
    ensures Inv(PublishStep(s))
  {
    hide JobsOk, Closes, Fsyncs, Awaits;
    var t := PublishStep(s);
    NoCloses(s);
    UnsyncedParts(s);
    if s.main.Publishing? { AwaitsCounted(Unsynced(s), Last(s)); }
    assert Safe(s, s.replOff) && Safe(t, s.replOff);
    assert JobsOk(t) by { SameJobs(s, t); }
    assert Unsynced(t) == Unsynced(s) && OldDurable(t) && CurDurable(t);
  }

  lemma SameJobs(s: State, t: State)
    requires JobsOk(s) && t.tags == s.tags && t.files == s.files && t.written == s.written && t.incrSize == s.incrSize
    requires t.queue == s.queue && Unsynced(t) == Unsynced(s)
    ensures JobsOk(t)
  {
    forall k | 0 <= k <= |Unsynced(t)|
      ensures JobOk(t, Unsynced(t)[k..])
    {
      assert JobOk(s, Unsynced(s)[k..]);
    }
  }

  // ---------------------------------------------------------------- the worker

  lemma TakeInv(s: State)
    requires Inv(s) && s.queue != [] && s.worker.Waiting?
    ensures Inv(WorkerStep(s))
  {
    hide JobsOk;
    SameJobs(s, WorkerStep(s));
    assert Unsynced(WorkerStep(s)) == Unsynced(s);
  }

  lemma WorkerPublishInv(s: State)
    requires Inv(s) && s.queue != [] && s.worker.Fsynced?
    ensures Inv(WorkerStep(s))
  {
    hide JobsOk;
    SameJobs(s, WorkerStep(s));
    assert Unsynced(WorkerStep(s)) == Unsynced(s);
    assert Safe(s, s.queue[0].offset);
  }

  lemma FinishInv(s: State)
    requires Inv(s) && s.queue != [] && s.worker.Published?
    ensures Inv(WorkerStep(s))
  {
    hide JobsOk;
    var t := WorkerStep(s);
    assert Unsynced(t) == Unsynced(s);
    assert JobsOk(t) by { SameListJobs(s, t); }
  }

  lemma SameListJobs(s: State, t: State)
    requires JobsOk(s) && t.tags == s.tags && t.files == s.files && t.written == s.written && t.incrSize == s.incrSize
    requires Unsynced(t) == Unsynced(s)
    ensures JobsOk(t)
  {
    forall k | 0 <= k <= |Unsynced(t)|
      ensures JobOk(t, Unsynced(t)[k..])
    {
      assert JobOk(s, Unsynced(s)[k..]);
    }
  }

  /** After the fsync of the head job every byte up to the end of its file is on disk. */
  lemma SyncedUpTo(s: State)
    requires Inv(s) && s.queue != [] && s.worker.Took?
    ensures var t := WorkerStep(s);
            && s.queue[0].file + Closes(s.queue) == Last(s)
            && (forall i: nat :: i < End(s, s.queue[0].file) ==> i in t.durable)
            && Safe(t, s.queue[0].offset)
  {
    hide Counters, Progress, CurDurable;
    var t, f := WorkerStep(s), s.queue[0].file;
    assert Unsynced(s) == s.queue && s.queue[0..] == s.queue;
    assert JobOk(s, Unsynced(s)[0..]);
    forall i: nat | i < End(s, f)
      ensures i in t.durable
    {
      if i >= Start(s, f) { assert Between(i, Start(s, f), End(s, f)); }
    }
  }

  lemma FsyncInv(s: State)
    requires Inv(s) && s.queue != [] && s.worker.Took?
    ensures Inv(WorkerStep(s))
  {
    var t, f := WorkerStep(s), s.queue[0].file;
    SyncedUpTo(s);
    FsyncedJobs(s);
    FsyncedRest(s);
    assert Layout(t) by { FsyncedLayout(s); }
    hide JobsOk, Layout, Closes, Awaits, OldDurable, CurDurable, WorkerStep;
    assert Safe(t, s.pending) && Progress(t) && Offsets(t) && Counters(t) by { FsyncedSafe(s); }
  }

  lemma FsyncedLayout(s: State)
    requires Layout(s) && s.queue != [] && s.worker.Took? && s.queue[0].file <= Last(s)
    ensures Layout(WorkerStep(s))
  {
    var f := s.queue[0].file;
    if f + 1 < |s.files| {
      FilesSorted(s, f + 1, Last(s));
    }
    assert End(s, f) <= s.written;
  }

  lemma FsyncedSafe(s: State)
    requires Inv(s) && s.queue != [] && s.worker.Took? && Safe(WorkerStep(s), s.queue[0].offset)
    ensures var t := WorkerStep(s); Safe(t, s.pending) && Progress(t) && Offsets(t) && Counters(t)
  {
    hide JobsOk, OldDurable, CurDurable;
  }

  lemma FsyncedJobs(s: State)
    requires JobsOk(s) && s.queue != [] && s.worker.Took?
    ensures JobsOk(WorkerStep(s))
  {
    var t, u := WorkerStep(s), Unsynced(s);
    assert Unsynced(t) == u[1..];
    forall k | 0 <= k <= |u[1..]|
      ensures JobOk(t, u[1..][k..])
    {
      assert u[1..][k..] == u[k + 1..];
      assert JobOk(s, u[k + 1..]);
    }
  }

  lemma FsyncedRest(s: State)
    requires Inv(s) && s.queue != [] && s.worker.Took?
    requires var t := WorkerStep(s);
             && s.queue[0].file + Closes(s.queue) == Last(s)
             && (forall i: nat :: i < End(s, s.queue[0].file) ==> i in t.durable)
    ensures OldDurable(WorkerStep(s)) && CurDurable(WorkerStep(s))
  {
    hide JobsOk, Progress, Offsets, Counters;
    var t, f := WorkerStep(s), s.queue[0].file;
    assert Unsynced(s) == s.queue && Unsynced(t) == s.queue[1..];
    assert Closes(s.queue) == (if s.queue[0].CloseJob? then 1 else 0) + Closes(s.queue[1..]);
    if f < Last(s) { FilesSorted(s, f, f + 1); }
    if Awaits(s.queue, Last(s)) && !Awaits(s.queue[1..], Last(s)) {
      assert f == Last(s) && End(s, f) == s.written;
    }
  }

  lemma WorkerInv(s: State)
    requires Inv(s)
    ensures Inv(WorkerStep(s))
  {
    hide Inv;
    if s.queue != [] {
      match s.worker {
        case Waiting => TakeInv(s);
        case Took => FsyncInv(s);
        case Fsynced => WorkerPublishInv(s);
        case Published => FinishInv(s);
      }
    }
  }

  // ---------------------------------------------------------------- whole runs

  /** Across files: a new INCR is opened with an empty buffer, and the main thread does not
      publish while the close of an earlier file is outstanding. */
  predicate Guard(s: State, e: Event) {
    && (e.Rotate? && s.main.Idle? ==> BufEmpty(s))
    && (e.MainPublish? && (s.main.Publishing? || s.main.Synced?) ==> Closes(s.queue) == 0)
  }

  predicate Guarded(s: State, es: seq<Event>)
    decreases |es|
  {
    es == [] || (Guard(s, es[0]) && Guarded(Step(s, es[0]), es[1..]))
  }

  lemma StepInv(s: State, e: Event)
    requires Inv(s) && Guard(s, e)
    ensures Inv(Step(s, e))
  {
    hide Inv, FeedStep, RotateStep, WriteStep, SettleStep, WorkerStep, FlushPc, Closes;
    if !s.exited {
      match e {
        case Feed(bytes, advance) => FeedInv(s, bytes, advance);
        case SetPolicy(p) => if s.main.Idle? { PolicyInv(s, p, if p.Always? then Draining else Idle); }
        case DrainDone => if s.main.Draining? { PolicyInv(s, s.policy, Idle); }
        case Rotate => if s.main.Idle? { RotateInv(s); } else { NoRotate(s); }
        case FlushStart(postpone, elapsed) => if s.main.Idle? { FlushInv(s, postpone, elapsed); }
        case WriteSome(n) => WriteInv(s, n);
        case Settle(truncateOk) => SettleInv(s, truncateOk);
        case TryFsync(skip, elapsed) => TryInv(s, skip, elapsed);
        case MainPublish => if s.main.Publishing? || s.main.Synced? { PublishInv(s); }
        case WorkerNext => WorkerInv(s);
      }
    }
  }

  lemma NoRotate(s: State)
    requires !s.main.Idle?
    ensures RotateStep(s) == s
  {
  }

  lemma TryInv(s: State, skip: bool, elapsed: bool)
    requires Inv(s)
    ensures Inv(TryStep(s, skip, elapsed))
  {
    hide Inv, Bytes;
    if s.main.Trying? {
      AlwaysInv(s);
      SubmitInv(s);
      SkipInv(s);
    }
  }

  lemma {:induction false} RunInv(s: State, es: seq<Event>)
    requires Inv(s) && Guarded(s, es)
    ensures Inv(Run(s, es))
    decreases |es|
  {
    hide Inv, Step, Guard;
    if es != [] {
      StepInv(s, es[0]);
      RunInv(Step(s, es[0]), es[1..]);
    }
  }

  predicate NoRotation(es: seq<Event>) {
    forall i :: 0 <= i < |es| ==> !es[i].Rotate?
  }

  lemma StepOneFile(s: State, e: Event)
    requires Closes(s.queue) == 0 && !e.Rotate?
    ensures Closes(Step(s, e).queue) == 0
  {
    ClosesAdd(s.queue, FsyncJob(Last(s), s.replOff));
    if s.queue != [] { ClosesSuffix(s.queue, 1); }
  }

  lemma {:induction false} OneFileGuarded(s: State, es: seq<Event>)
    requires Closes(s.queue) == 0 && NoRotation(es)
    ensures Guarded(s, es)
    decreases |es|
  {
    hide Step, Closes;
    if es != [] {
      StepOneFile(s, es[0]);
      OneFileGuarded(Step(s, es[0]), es[1..]);
    }
  }

  /** Within one INCR file, in every interleaving of the main thread and the worker and under any
      changes of the fsync policy, every AOF byte of every command up to the published offset is
      on disk. */
  lemma PublishedIsDurable(replOff: nat, policy: Policy, es: seq<Event>)
    requires NoRotation(es)
    ensures var s := Run(Opened(replOff, policy), es);
            forall i :: 0 <= i < |s.tags| && s.tags[i] <= s.pending ==> i in s.durable
  {
    var s0 := Opened(replOff, policy);
    OpenedInv(replOff, policy);
    OneFileGuarded(s0, es);
    RunInv(s0, es);
    hide Run;
    assert Safe(Run(s0, es), Run(s0, es).pending);
  }

  /** The same across any number of files, for guarded runs. */
  lemma PublishedIsDurableAcrossFiles(replOff: nat, policy: Policy, es: seq<Event>)
    requires Guarded(Opened(replOff, policy), es)
    ensures var s := Run(Opened(replOff, policy), es);
            forall i :: 0 <= i < |s.tags| && s.tags[i] <= s.pending ==> i in s.durable
  {
    var s0 := Opened(replOff, policy);
    OpenedInv(replOff, policy);
    RunInv(s0, es);
    hide Run, Guarded;
    assert Safe(Run(s0, es), Run(s0, es).pending);
  }

  /** What the first theorem rests on: while the counter reads zero, every byte the main thread
      believes fsynced is on disk, because a job leaves the counter only after its fsync. */
  lemma CounterZeroMeansDurable(replOff: nat, policy: Policy, es: seq<Event>, i: nat)
    requires NoRotation(es)
    requires Run(Opened(replOff, policy), es).fsyncJobs == 0
    requires i < Run(Opened(replOff, policy), es).fsyncOffset
    ensures i in Run(Opened(replOff, policy), es).durable
  {
    var s0 := Opened(replOff, policy);
    OpenedInv(replOff, policy);
    OneFileGuarded(s0, es);
    RunInv(s0, es);
    RunOneFile(s0, es);
    hide Run;
    var s := Run(s0, es);
    UnsyncedParts(s);
    AwaitsCounted(Unsynced(s), Last(s));
  }

  lemma {:induction false} RunOneFile(s: State, es: seq<Event>)
    requires s.files == [0] && NoRotation(es)
    ensures Run(s, es).files == [0]
    decreases |es|
  {
    if es != [] {
      assert Step(s, es[0]).files == [0];
      RunOneFile(Step(s, es[0]), es[1..]);
    }
  }

  // ---------------------------------------------------------------- exactly when a publication is safe

  /** A publication by the main thread is safe if and only if the bytes of the earlier files are
      on disk: the emptiness test of 1565 only looks at the current file, and the counter does not
      count the closes. */
  lemma PublicationSafeIff(s: State)
    requires Inv(s) && (s.main.Publishing? || s.main.Synced?)
    ensures Safe(PublishStep(s), PublishStep(s).pending) <==>
            forall i: nat :: i < Start(s, Last(s)) ==> i in s.durable
  {
    hide JobsOk, Progress, OldDurable;
    UnsyncedParts(s);
    if s.main.Publishing? { AwaitsCounted(Unsynced(s), Last(s)); }
  }

  lemma RunCons(s: State, e: Event, es: seq<Event>)
    ensures Run(s, [e] + es) == Run(Step(s, e), es)
  {
    hide Step;
    assert ([e] + es)[1..] == es;
  }

  const BEFORE_ROTATION: State :=
    State([1], [0], 1, {}, 1, 0, 1, 0, EverySec, Idle, [], 0, Waiting, false)

  lemma FeedOneByte()
    ensures Step(Opened(0, EverySec), Feed(1, 1)) == BEFORE_ROTATION.(written := 0, incrSize := 0)
  {
    assert Copies(1, 1) == [1];
    assert [] + [1] == [1];
  }

  lemma WriteFed()
    ensures var s1 := BEFORE_ROTATION.(written := 0, incrSize := 0);
            var s2 := s1.(main := Writing(false));
            Step(s1, FlushStart(false, false)) == s2
            && Step(s2, WriteSome(1)) == s1.(written := 1, main := Settling(false, 1))
  {
  }

  lemma SettleWritten()
    ensures var s3 := BEFORE_ROTATION.(incrSize := 0, main := Settling(false, 1));
            var s4 := BEFORE_ROTATION.(main := Trying(false));
            Step(s3, Settle(true)) == s4 && Step(s4, TryFsync(false, false)) == BEFORE_ROTATION
  {
    hide Bytes;
  }

  /** The state before the rotation below is reachable. */
  lemma WriteOneByte()
    ensures Run(Opened(0, EverySec), [Feed(1, 1)] + ([FlushStart(false, false)] + ([WriteSome(1)] +
                                     ([Settle(true)] + ([TryFsync(false, false)] + []))))) == BEFORE_ROTATION
  {
    hide Step, Run;
    var s1 := BEFORE_ROTATION.(written := 0, incrSize := 0);
    var s2 := s1.(main := Writing(false));
    var s3 := BEFORE_ROTATION.(incrSize := 0, main := Settling(false, 1));
    var s4 := BEFORE_ROTATION.(main := Trying(false));
    FeedOneByte();
    WriteFed();
    SettleWritten();
    RunCons(Opened(0, EverySec), Feed(1, 1), [FlushStart(false, false)] + ([WriteSome(1)] +
                                     ([Settle(true)] + ([TryFsync(false, false)] + []))));
    RunCons(s1, FlushStart(false, false), [WriteSome(1)] + ([Settle(true)] + ([TryFsync(false, false)] + [])));
    RunCons(s2, WriteSome(1), [Settle(true)] + ([TryFsync(false, false)] + []));
    RunCons(s3, Settle(true), [TryFsync(false, false)] + []);
    RunCons(s4, TryFsync(false, false), []);
    RunNone(BEFORE_ROTATION);
  }

  lemma RunNone(s: State)
    ensures Run(s, []) == s
  {
  }

  /** A run in which it is not: write under everysec, rotate, and flush an empty buffer before the
      worker has closed the old file. */
  lemma RotationPublishesEarly()
    ensures BEFORE_ROTATION.tags == [1]
    ensures var s := Run(BEFORE_ROTATION, [Rotate] + ([FlushStart(false, false)] + ([MainPublish] + [])));
            s.pending == 1 && s.tags == [1] && s.durable == {}
  {
    var s1 := BEFORE_ROTATION.(files := [0, 1], incrSize := 0, queue := [CloseJob(0, 1)]);
    var s2 := s1.(main := Publishing);
    var s3 := s1.(pending := 1);
    assert Step(BEFORE_ROTATION, Rotate) == s1 by { assert [0] + [1] == [0, 1]; }
    assert Step(s1, FlushStart(false, false)) == s2 && Step(s2, MainPublish) == s3;
    hide Step, Run;
    RunCons(BEFORE_ROTATION, Rotate, [FlushStart(false, false)] + ([MainPublish] + []));
    RunCons(s1, FlushStart(false, false), [MainPublish] + []);
    RunCons(s2, MainPublish, []);
    RunNone(s3);
  }

  lemma {:induction false} RunMore(s: State, a: seq<Event>, b: seq<Event>)
    ensures Run(s, a + b) == Run(Run(s, a), b)
    decreases |a|
  {
    hide Step;
    if a == [] {
      assert a + b == b;
    } else {
      assert (a + b)[1..] == a[1..] + b;
      RunMore(Step(s, a[0]), a[1..], b);
    }
  }

  // ---------------------------------------------------------------- publications in order

  function Unpublished(s: State): seq<Job> {
    if s.worker.Published? && s.queue != [] then s.queue[1..] else s.queue
  }

  ghost predicate Sorted(q: seq<Job>, lo: nat, hi: nat) {
    && (forall k :: 0 <= k < |q| ==> lo <= q[k].offset <= hi)
    && (forall k, l :: 0 <= k < l < |q| ==> q[k].offset <= q[l].offset)
  }

  /** Outstanding publications are not behind the last one, and under policy always there are
      none: CONFIG SET waits for them. */
  ghost predicate Ordered(s: State) {
    && s.pending <= s.replOff
    && Sorted(Unpublished(s), s.pending, s.replOff)
    && s.fsyncJobs == Fsyncs(s.queue)
    && (s.queue == [] ==> s.worker.Waiting?)
    && (s.policy.Always? && !s.main.Draining? ==> s.fsyncJobs == 0)
    && (s.main.Publishing? ==> s.fsyncJobs == 0)
    && (s.main.Draining? || s.main.Synced? ==> s.policy.Always?)
  }

  lemma SortedTail(q: seq<Job>, lo: nat, hi: nat)
    requires Sorted(q, lo, hi) && q != []
    ensures Sorted(q[1..], q[0].offset, hi) && lo <= q[0].offset <= hi
  {
  }

  lemma OrderedWorker(s: State)
    requires Ordered(s)
    ensures Ordered(WorkerStep(s)) && s.pending <= WorkerStep(s).pending
  {
    hide Fsyncs, Sorted, Bytes;
    if s.queue != [] {
      FsyncsTail(s.queue);
      if s.worker.Fsynced? {
        assert Unpublished(WorkerStep(s)) == s.queue[1..];
        SortedTail(s.queue, s.pending, s.replOff);
      }
      assert s.worker.Published? ==> Unpublished(WorkerStep(s)) == Unpublished(s);
    }
  }

  lemma FsyncsTail(q: seq<Job>)
    requires q != []
    ensures Fsyncs(q) == (if q[0].FsyncJob? then 1 else 0) + Fsyncs(q[1..])
  {
  }

  lemma OrderedSubmit(s: State, j: Job, n: nat)
    requires Ordered(s) && j.offset == s.replOff && n == s.fsyncJobs + (if j.FsyncJob? then 1 else 0)
    requires j.FsyncJob? ==> s.policy.EverySec? && s.main.Trying?
    ensures Ordered(s.(queue := s.queue + [j], fsyncJobs := n, main := if j.FsyncJob? then Idle else s.main))
  {
    ClosesAdd(s.queue, j);
    hide Fsyncs;
    var t := s.(queue := s.queue + [j], fsyncJobs := n, main := if j.FsyncJob? then Idle else s.main);
    assert Unpublished(t) == Unpublished(s) + [j];
  }

  lemma OrderedPublish(s: State)
    requires Ordered(s) && Closes(s.queue) == 0
    ensures Ordered(PublishStep(s)) && s.pending <= PublishStep(s).pending
  {
    if s.main.Publishing? || s.main.Synced? {
      NoJobs(s.queue);
    }
  }

  lemma OrderedStep(s: State, e: Event)
    requires Ordered(s) && Guard(s, e)
    ensures Ordered(Step(s, e)) && s.pending <= Step(s, e).pending
  {
    hide Fsyncs, Closes, Bytes;
    if !s.exited {
      match e {
        case WorkerNext => OrderedWorker(s);
        case MainPublish => if s.main.Publishing? || s.main.Synced? { OrderedPublish(s); }
        case Rotate => OrderedSubmit(s, CloseJob(Last(s), s.replOff), s.fsyncJobs);
        case TryFsync(skip, elapsed) =>
          if s.main.Trying? && s.policy.EverySec? {
            OrderedSubmit(s, FsyncJob(Last(s), s.replOff), s.fsyncJobs + 1);
          }
        case DrainDone => if s.queue == [] { assert Fsyncs(s.queue) == 0 by { NoFsyncs(); } }
        case Feed(bytes, advance) =>
        case SetPolicy(p) =>
        case FlushStart(postpone, elapsed) =>
        case WriteSome(n) =>
        case Settle(truncateOk) =>
      }
    }
  }

  lemma NoFsyncs()
    ensures Fsyncs([]) == 0
  {
  }

  lemma {:induction false} OrderedRun(s: State, es: seq<Event>)
    requires Ordered(s) && Guarded(s, es)
    ensures Ordered(Run(s, es)) && s.pending <= Run(s, es).pending
    decreases |es|
  {
    hide Ordered, Step, Guard;
    if es != [] {
      OrderedStep(s, es[0]);
      OrderedRun(Step(s, es[0]), es[1..]);
    }
  }

  /** The published offset never goes back, under any interleaving and any policy changes. */
  lemma PublishedNeverGoesBack(replOff: nat, policy: Policy, es: seq<Event>, more: seq<Event>)
    requires NoRotation(es) && NoRotation(more)
    ensures Run(Opened(replOff, policy), es).pending <= Run(Opened(replOff, policy), es + more).pending
  {
    var s0 := Opened(replOff, policy);
    assert Ordered(s0);
    OneFileGuarded(s0, es);
    OrderedRun(s0, es);
    RunCloses(s0, es);
    OneFileGuarded(Run(s0, es), more);
    OrderedRun(Run(s0, es), more);
    RunMore(s0, es, more);
  }

  lemma {:induction false} RunCloses(s: State, es: seq<Event>)
    requires Closes(s.queue) == 0 && NoRotation(es)
    ensures Closes(Run(s, es).queue) == 0
    decreases |es|
  {
    hide Step, Closes;
    if es != [] {
      StepOneFile(s, es[0]);
      RunCloses(Step(s, es[0]), es[1..]);
    }
  }
}
