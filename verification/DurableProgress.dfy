/** The published offset does advance: what a flush and the worker achieve when writes and fsyncs
    succeed. */
module DurableProgress {
  import opened Durable

  /** The whole buffer goes out in one write. */
  function WriteAll(s: State, postpone: bool, elapsed: bool, truncateOk: bool): seq<Event> {
    [FlushStart(postpone, elapsed)] + ([WriteSome(if BufEmpty(s) then 0 else |s.tags| - s.written)] + ([Settle(truncateOk)] + []))
  }

  function AllWritten(s: State): State {
    s.(written := |s.tags|, incrSize := s.incrSize + (if BufEmpty(s) then 0 else |s.tags| - s.written))
  }

  lemma Written(s: State, postpone: bool, elapsed: bool, truncateOk: bool)
    requires !s.exited && s.main == Idle && !BufEmpty(s) && !(s.policy.EverySec? && s.fsyncJobs != 0 && postpone)
    ensures Run(s, WriteAll(s, postpone, elapsed, truncateOk)) ==
            AllWritten(s).(main := Trying(s.policy.EverySec? && s.fsyncJobs != 0))
  {
    var n := |s.tags| - s.written;
    var s1 := Step(s, FlushStart(postpone, elapsed));
    var s2 := Step(s1, WriteSome(n));
    var s3 := Step(s2, Settle(truncateOk));
    RunCons(s, FlushStart(postpone, elapsed), [WriteSome(n)] + ([Settle(truncateOk)] + []));
    RunCons(s1, WriteSome(n), [Settle(truncateOk)] + []);
    RunCons(s2, Settle(truncateOk), []);
    RunNone(s3);
    assert s2 == s.(written := |s.tags|, main := Settling(s.policy.EverySec? && s.fsyncJobs != 0, n));
  }

  /** Under policy always a complete flush ends with every byte of the file on disk and the current
      offset published. */
  lemma AlwaysPublishes(s: State, postpone: bool, elapsed: bool, truncateOk: bool)
    requires !s.exited && s.main == Idle && s.policy == Always && !BufEmpty(s)
    ensures var r := Run(s, WriteAll(s, postpone, elapsed, truncateOk) + ([TryFsync(false, elapsed)] + ([MainPublish] + [])));
            && r.main == Idle && BufEmpty(r) && r.pending == s.replOff && r.fsyncOffset == r.incrSize
            && forall i: nat :: Start(s, Last(s)) <= i < |s.tags| ==> i in r.durable
  {
    var a := AllWritten(s).(main := Trying(false));
    Written(s, postpone, elapsed, truncateOk);
    RunMore(s, WriteAll(s, postpone, elapsed, truncateOk), [TryFsync(false, elapsed)] + ([MainPublish] + []));
    hide WriteAll, Run;
    var b := Step(a, TryFsync(false, elapsed));
    RunCons(a, TryFsync(false, elapsed), [MainPublish] + []);
    RunCons(b, MainPublish, []);
    RunNone(Step(b, MainPublish));
    assert b.durable == s.durable + Bytes(Start(s, Last(s)), |s.tags|);
  }

  /** With nothing to write, fsync or wait for, a flush publishes the current offset. */
  lemma IdlePublishes(s: State, postpone: bool, elapsed: bool)
    requires !s.exited && s.main == Idle && BufEmpty(s) && s.fsyncOffset == s.incrSize && s.fsyncJobs == 0
    ensures Run(s, [FlushStart(postpone, elapsed)] + ([MainPublish] + [])) == s.(pending := s.replOff)
  {
    RunCons(s, FlushStart(postpone, elapsed), [MainPublish] + []);
    RunCons(s.(main := Publishing), MainPublish, []);
    RunNone(s.(pending := s.replOff));
    hide Run;
  }

  // ---------------------------------------------------------------- the worker

  /** The four steps of the worker on one job. */
  const JOB: seq<Event> := [WorkerNext] + ([WorkerNext] + ([WorkerNext] + ([WorkerNext] + [])))

  function Jobs(n: nat): seq<Event> {
    if n == 0 then [] else JOB + Jobs(n - 1)
  }

  function JobDone(s: State): State
    requires s.queue != []
  {
    var job := s.queue[0];
    s.(durable := s.durable + Bytes(Start(s, job.file), End(s, job.file)), pending := job.offset, queue := s.queue[1..],
       fsyncJobs := if job.FsyncJob? && s.fsyncJobs > 0 then s.fsyncJobs - 1 else s.fsyncJobs)
  }

  lemma OneJob(s: State)
    requires !s.exited && s.worker == Waiting && s.queue != []
    ensures Run(s, JOB) == JobDone(s)
  {
    var job := s.queue[0];
    var s1 := s.(worker := Took);
    var s2 := s.(durable := s.durable + Bytes(Start(s, job.file), End(s, job.file)), worker := Fsynced);
    var s3 := s2.(pending := job.offset, worker := Published);
    hide Bytes;
    assert Step(s, WorkerNext) == s1 && Step(s1, WorkerNext) == s2 && Step(s2, WorkerNext) == s3;
    assert Step(s3, WorkerNext) == JobDone(s);
    hide Step, Run;
    RunCons(s, WorkerNext, [WorkerNext] + ([WorkerNext] + ([WorkerNext] + [])));
    RunCons(s1, WorkerNext, [WorkerNext] + ([WorkerNext] + []));
    RunCons(s2, WorkerNext, [WorkerNext] + []);
    RunCons(s3, WorkerNext, []);
    RunNone(JobDone(s));
  }

  /** Left alone, the worker empties its list: every file it was given is on disk and the offset of
      the last job is published. */
  lemma {:induction false} WorkerDrains(s: State)
    requires !s.exited && s.worker == Waiting
    ensures var r := Run(s, Jobs(|s.queue|));
            && r == s.(durable := r.durable, pending := r.pending, queue := [], fsyncJobs := r.fsyncJobs)
            && s.durable <= r.durable && r.pending == (if s.queue == [] then s.pending else s.queue[|s.queue| - 1].offset)
            && (forall k, i: nat :: 0 <= k < |s.queue| && Start(s, s.queue[k].file) <= i < End(s, s.queue[k].file) ==>
                  i in r.durable)
    decreases |s.queue|
  {
    if s.queue == [] {
      RunNone(s);
    } else {
      var t := JobDone(s);
      OneJob(s);
      RunMore(s, JOB, Jobs(|s.queue| - 1));
      WorkerDrains(t);
      hide Run;
      var r := Run(t, Jobs(|t.queue|));
      forall k, i: nat | 0 <= k < |s.queue| && Start(s, s.queue[k].file) <= i < End(s, s.queue[k].file)
        ensures i in r.durable
      {
        if k > 0 { assert t.queue[k - 1] == s.queue[k]; }
      }
    }
  }

  /** Under policy everysec a complete flush whose second has elapsed hands the file to the worker;
      when the worker has caught up, everything written is on disk and published. */
  lemma EverySecCatchesUp(s: State, postpone: bool, truncateOk: bool)
    requires !s.exited && s.main == Idle && s.policy == EverySec && !BufEmpty(s)
    requires s.queue == [] && s.worker == Waiting && s.fsyncJobs == 0 && s.files != []
    ensures var r := Run(s, WriteAll(s, postpone, true, truncateOk) + ([TryFsync(false, true)] + Jobs(1)));
            && r.main == Idle && BufEmpty(r) && r.pending == s.replOff && r.queue == [] && r.fsyncOffset == r.incrSize
            && forall i: nat :: Start(s, Last(s)) <= i < |s.tags| ==> i in r.durable
  {
    var a := AllWritten(s).(main := Trying(false));
    Written(s, postpone, true, truncateOk);
    RunMore(s, WriteAll(s, postpone, true, truncateOk), [TryFsync(false, true)] + Jobs(1));
    RunCons(a, TryFsync(false, true), Jobs(1));
    var b := Step(a, TryFsync(false, true));
    assert b.queue == [FsyncJob(Last(s), s.replOff)] && b.written == |s.tags| && b.files == s.files;
    hide WriteAll, Run, Jobs, Step;
    WorkerDrains(b);
    assert Start(b, Last(s)) == Start(s, Last(s)) && End(b, Last(s)) == |s.tags|;
    assert b.queue[0].file == Last(s);
  }

  // ---------------------------------------------------------------- when writes have stopped

  /** Bytes written within the last second before writes stopped: under policy everysec a later flush
      with an empty buffer still hands the file to the worker, and all of it ends up on disk and
      published. */
  lemma IdleEverySecCatchesUp(s: State, postpone: bool)
    requires !s.exited && s.main == Idle && s.policy == EverySec && BufEmpty(s) && s.fsyncOffset != s.incrSize
    requires s.queue == [] && s.worker == Waiting && s.fsyncJobs == 0 && s.files != []
    ensures var r := Run(s, [FlushStart(postpone, true)] + ([TryFsync(false, true)] + Jobs(1)));
            && r.main == Idle && r.pending == s.replOff && r.fsyncOffset == r.incrSize == s.incrSize && r.queue == []
            && forall i: nat :: Start(s, Last(s)) <= i < s.written ==> i in r.durable
  {
    var a := s.(main := Trying(false));
    assert Step(s, FlushStart(postpone, true)) == a;
    RunCons(s, FlushStart(postpone, true), [TryFsync(false, true)] + Jobs(1));
    RunCons(a, TryFsync(false, true), Jobs(1));
    var b := Step(a, TryFsync(false, true));
    assert b.queue == [FsyncJob(Last(s), s.replOff)] && b.written == s.written && b.files == s.files;
    hide Run, Jobs, Step;
    WorkerDrains(b);
    assert Start(b, Last(s)) == Start(s, Last(s)) && End(b, Last(s)) == s.written;
    assert b.queue[0].file == Last(s);
  }

  /** The same after a change of policy from everysec to always. */
  lemma IdleAlwaysPublishes(s: State, postpone: bool, elapsed: bool)
    requires !s.exited && s.main == Idle && s.policy == Always && BufEmpty(s) && s.fsyncOffset != s.incrSize
    ensures var r := Run(s, [FlushStart(postpone, elapsed)] + ([TryFsync(false, elapsed)] + ([MainPublish] + [])));
            && r.main == Idle && r.pending == s.replOff && r.fsyncOffset == r.incrSize == s.incrSize
            && forall i: nat :: Start(s, Last(s)) <= i < s.written ==> i in r.durable
  {
    var a := s.(main := Trying(false));
    assert Step(s, FlushStart(postpone, elapsed)) == a;
    var b := Step(a, TryFsync(false, elapsed));
    RunCons(s, FlushStart(postpone, elapsed), [TryFsync(false, elapsed)] + ([MainPublish] + []));
    RunCons(a, TryFsync(false, elapsed), [MainPublish] + []);
    RunCons(b, MainPublish, []);
    RunNone(Step(b, MainPublish));
    hide Run;
    assert b.durable == s.durable + Bytes(Start(s, Last(s)), s.written);
  }

  // ---------------------------------------------------------------- how a flush begins

  /** A flush of a buffer that is not empty is put off exactly under policy everysec, while an fsync is in
      progress and waiting is allowed. With an empty buffer it publishes the offset exactly when all bytes
      are handed to fsync and none is in progress, and fsyncs the rest exactly under policy always, or under
      everysec once the second has elapsed and no fsync is in progress. */
  lemma FlushStartIff(s: State, postpone: bool, elapsed: bool)
    requires !s.exited && s.main == Idle
    ensures var t := Step(s, FlushStart(postpone, elapsed));
            && t == s.(main := t.main) && (t.main.Idle? || t.main.Writing? || t.main.Publishing? || t.main == Trying(false))
            && (t.main.Writing? <==> s.written < |s.tags| && !(s.policy == EverySec && s.fsyncJobs != 0 && postpone))
            && (t.main.Writing? ==> t.main.inProgress == (s.policy == EverySec && s.fsyncJobs != 0))
            && (t.main.Publishing? <==> s.written >= |s.tags| && s.fsyncOffset == s.incrSize && s.fsyncJobs == 0)
            && (t.main.Trying? <==> && s.written >= |s.tags| && s.fsyncOffset != s.incrSize
                                    && (s.policy == Always || (s.policy == EverySec && elapsed && s.fsyncJobs == 0)))
  {
  }

  /** A write that was not complete: under policy always the process exits; otherwise it goes on, without the
      bytes if they could be taken back. A complete one goes on to its fsync. */
  lemma SettleIff(s: State, truncateOk: bool)
    requires Layout(s) && !s.exited && s.main.Settling?
    ensures var t := Step(s, Settle(truncateOk));
            && (t.exited <==> s.written < |s.tags| && s.policy == Always)
            && (t.main == Trying(s.main.inProgress) <==> s.written == |s.tags|)
            && (s.written < |s.tags| && s.policy != Always ==>
                  && t.main == Idle && t.exited == false
                  && t.written == (if truncateOk then s.written - s.main.n else s.written)
                  && t.incrSize == s.incrSize + if truncateOk then 0 else s.main.n)
  {
  }

  /** A change of the policy takes effect at once; a change to always waits until the worker has done all
      its jobs. */
  lemma PolicyIff(s: State, p: Policy)
    requires !s.exited && s.main == Idle
    ensures var t := Step(s, SetPolicy(p));
            && t == s.(policy := p, main := t.main) && (t.main == if p == Always then Draining else Idle)
            && (t.main == Draining ==> (Step(t, DrainDone).main == Idle <==> t.queue == []))
            && (forall e :: t.main == Draining && e != DrainDone && e != WorkerNext ==> Step(t, e) == t)
  {
  }
}
