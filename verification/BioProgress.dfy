/** The background workers get their work done: a submitted job is listed and counted once, a worker left
    alone finishes everything listed in order, and every completion is called back. */
module BioProgress {
  import opened Options
  import opened Bio

  /** Closing files is the work of the first worker; fsyncs of the append-only file and its closing share
      the second, so that they stay in order; freeing is for the third. A completion request goes to
      the worker whose jobs it follows. */
  predicate Serves(w: nat, k: Kind) {
    match k
    case CloseFile => w == 0
    case CompCloseFile => w == 0
    case AofFsync => w == 1
    case CloseAof => w == 1
    case CompAofFsync => w == 1
    case LazyFree => w == 2
    case CompLazyFree => w == 2
  }

  function Steps(s: State, e: Event, n: nat): State
    decreases n
  {
    if n == 0 then s else Steps(Step(s, e), e, n - 1)
  }

  /** A run is its steps, one after the other. */
  lemma {:induction false} RunSnoc(s: State, es: seq<Event>, e: Event)
    ensures Run(s, es + [e]) == Step(Run(s, es), e)
    decreases |es|
  {
    hide Step;
    if es == [] {
      assert ([] + [e])[1..] == [];
    } else {
      assert (es + [e])[1..] == es[1..] + [e];
      RunSnoc(Step(s, es[0]), es[1..], e);
    }
  }

  // ---------------------------------------------------------------- submitting

  /** bioSubmitJob puts the job at the end of its worker's list, counts it once, and gives the lock back;
      nothing else changes. */
  lemma SubmitAdds(s: State, t: nat, job: Job, w: nat)
    requires Inv(s) && Pc(s, t).Out? && Serves(w, job.kind) && Free(s, w)
    ensures var r := Steps(Step(s, SubmitLock(t, job)), ClientStep(t), 3);
            && r.ws == s.ws[w := s.ws[w].(queue := s.ws[w].queue + [job], submitted := s.ws[w].submitted + [job])]
            && (forall k :: Counter(r, k) == Counter(s, k) + if k == job.kind then 1 else 0)
            && (forall u: nat :: Pc(r, u) == Pc(s, u))
            && r.comp == s.comp && r.taken == s.taken && r.called == s.called && r.drains == s.drains
  {
    hide Inv;
    var s1 := Step(s, SubmitLock(t, job));
    var s2 := Step(s1, ClientStep(t));
    var s3 := Step(s2, ClientStep(t));
    assert Pc(s1, t) == Adding(job) && Pc(s2, t) == Counting(job) && Pc(s3, t) == Unlocking(w);
    var s4 := Step(s3, ClientStep(t));
    assert s4.ws == s.ws[w := s.ws[w].(queue := s.ws[w].queue + [job], submitted := s.ws[w].submitted + [job])];
    var e := ClientStep(t);
    assert Steps(s1, e, 3) == Steps(s2, e, 2) == Steps(s3, e, 1) == Steps(s4, e, 0);
  }

  /** bioDrainWorker on an empty list returns at once. */
  lemma DrainReturns(s: State, t: nat, k: Kind, w: nat)
    requires Inv(s) && Pc(s, t).Out? && Serves(w, k) && Free(s, w) && s.ws[w].queue == []
    ensures var r := Steps(Step(s, DrainLock(t, k)), ClientStep(t), 2);
            && Pc(r, t).Out? && r.ws == s.ws && r.drains == s.drains + [Item(w, |s.ws[w].submitted|)]
  {
    hide Inv;
    var s1 := Step(s, DrainLock(t, k));
    var s2 := Step(s1, ClientStep(t));
    assert Pc(s1, t) == Draining(w, |s.ws[w].submitted|) && Pc(s2, t) == Unlocking(w);
    var s3 := Step(s2, ClientStep(t));
    assert s3.ws == s.ws;
    assert Steps(s1, ClientStep(t), 2) == Steps(s2, ClientStep(t), 1) == Steps(s3, ClientStep(t), 0);
  }

  /** On a list with jobs it gives the lock back and waits, and takes the lock again to look once more. */
  lemma DrainWaitsAgain(s: State, t: nat, k: Kind, w: nat)
    requires Inv(s) && Pc(s, t).Out? && Serves(w, k) && Free(s, w) && s.ws[w].queue != []
    ensures var s1 := Step(s, DrainLock(t, k));
            var s2 := Step(s1, ClientStep(t));
            && Pc(s2, t).Drowsy? && Free(s2, w) && s2.ws == s.ws && Step(s2, ClientStep(t)).ws == s1.ws
            && Pc(Step(s2, ClientStep(t)), t) == Pc(s1, t) && s2.drains == s.drains
  {
    hide Inv;
    var s1 := Step(s, DrainLock(t, k));
    assert Pc(s1, t) == Draining(w, |s.ws[w].submitted|);
    assert Step(s1, ClientStep(t)).ws == s.ws;
    assert Step(Step(s1, ClientStep(t)), ClientStep(t)).ws == s1.ws;
  }

  /** bioPendingJobsOfType returns, and what it sees is the number of jobs of the type in the list. */
  lemma ReadReturns(s: State, t: nat, k: Kind, w: nat)
    requires Inv(s) && Pc(s, t).Out? && Serves(w, k) && Free(s, w)
    ensures var r := Steps(Step(s, ReadLock(t, k)), ClientStep(t), 2);
            && Pc(Step(s, ReadLock(t, k)), t) == Reading(k)
            && Pc(r, t).Out? && r.ws == s.ws && r.counter == s.counter && Counter(s, k) == Count(s.ws[w].queue, k)
  {
    hide Inv, Counter, Count;
    CountSeen(s, k, w);
    var s1 := Step(s, ReadLock(t, k));
    var s2 := Step(s1, ClientStep(t));
    assert Pc(s1, t) == Reading(k) && Pc(s2, t) == Unlocking(w);
    var s3 := Step(s2, ClientStep(t));
    assert s3.ws == s.ws;
    assert Steps(s1, ClientStep(t), 2) == Steps(s2, ClientStep(t), 1) == Steps(s3, ClientStep(t), 0);
  }

  lemma CountSeen(s: State, k: Kind, w: nat)
    requires Inv(s) && Serves(w, k) && Free(s, w)
    ensures Counter(s, k) == Count(s.ws[w].queue, k)
  {
    assert CounterOk(s, k) && WorkerOk(s.ws[w], w);
    hide Count;
  }

  // ---------------------------------------------------------------- processing

  predicate AsksCompletion(k: Kind) {
    k == CompCloseFile || k == CompAofFsync || k == CompLazyFree
  }

  /** A sleeping worker whose lock is free can go back to the start of its loop. */
  lemma WorkerWakes(s: State, w: nat)
    requires w < |s.ws| && s.ws[w].pc == Asleep && Free(s, w)
    ensures Step(s, WorkerStep(w)) == s.(ws := s.ws[w := s.ws[w].(pc := Checking, lock := Some(WorkerThread))])
  {
  }

  /** A worker at the start of its loop with a job listed: five steps later that job, the oldest, is
      processed, unlisted and uncounted, and a completion request has been passed on. */
  lemma JobRuns(s: State, w: nat)
    requires Inv(s) && w < 3 && s.ws[w].pc == Checking && s.ws[w].queue != []
    ensures var v, r := s.ws[w], Steps(s, WorkerStep(w), 5);
            var job := v.queue[0];
            && Inv(r) && r.clients == s.clients
            && r.ws == s.ws[w := v.(queue := v.queue[1..], processed := v.processed + [job], finished := v.finished + [job])]
            && (forall k :: Counter(r, k) == Counter(s, k) - if k == job.kind then 1 else 0)
            && r.comp == s.comp + if AsksCompletion(job.kind) then [Item(w, |v.processed|)] else []
  {
    var e, v := WorkerStep(w), s.ws[w];
    assert WorkerOk(v, w);
    StepsInv(s, e, 5);
    hide Inv, Step;
    var job := v.queue[0];
    var s1 := Put(s, w, v.(pc := Running(job), lock := None));
    Takes(s, w);
    var done := v.processed + [job];
    var s2 := Put(s1, w, s1.ws[w].(pc := Processed(job), processed := done)).(
              comp := s.comp + if AsksCompletion(job.kind) then [Item(w, |v.processed|)] else []);
    Runs(s1, w);
    var s3 := Put(s2, w, s2.ws[w].(pc := Deleting(job), lock := Some(WorkerThread)));
    Relocks(s2, w);
    var s4 := Put(s3, w, s3.ws[w].(pc := Uncounting(job), queue := v.queue[1..], finished := v.finished + [job]));
    Deletes(s3, w);
    Uncounts(s4, w);
    var s5 := Step(s4, e);
    assert Steps(s, e, 5) == Steps(s1, e, 4) == Steps(s2, e, 3) == Steps(s3, e, 2) == Steps(s4, e, 1) == Steps(s5, e, 0);
  }

  function Put(s: State, w: nat, v: Worker): State
    requires w < |s.ws|
  {
    s.(ws := s.ws[w := v])
  }

  lemma Takes(s: State, w: nat)
    requires w < |s.ws| && s.ws[w].pc == Checking && s.ws[w].queue != []
    ensures Step(s, WorkerStep(w)) == Put(s, w, s.ws[w].(pc := Running(s.ws[w].queue[0]), lock := None))
  {
  }

  lemma Runs(s: State, w: nat)
    requires w < |s.ws| && s.ws[w].pc.Running?
    ensures var v := s.ws[w];
            var job := v.pc.job;
            Step(s, WorkerStep(w)) ==
            Put(s, w, v.(pc := Processed(job), processed := v.processed + [job])).(
              comp := s.comp + if AsksCompletion(job.kind) then [Item(w, |v.processed|)] else [])
  {
    assert s.comp + [] == s.comp;
  }

  lemma Relocks(s: State, w: nat)
    requires w < |s.ws| && s.ws[w].pc.Processed? && s.ws[w].lock == None
    ensures Step(s, WorkerStep(w)) == Put(s, w, s.ws[w].(pc := Deleting(s.ws[w].pc.job), lock := Some(WorkerThread)))
  {
  }

  lemma Deletes(s: State, w: nat)
    requires w < |s.ws| && s.ws[w].pc.Deleting? && s.ws[w].queue != []
    ensures var v := s.ws[w];
            Step(s, WorkerStep(w)) ==
            Put(s, w, v.(pc := Uncounting(v.pc.job), queue := v.queue[1..], finished := v.finished + [v.pc.job]))
  {
  }

  lemma Uncounts(s: State, w: nat)
    requires w < |s.ws| && s.ws[w].pc.Uncounting?
    ensures var r, job := Step(s, WorkerStep(w)), s.ws[w].pc.job;
            && r == Put(s, w, s.ws[w].(pc := Checking)).(counter := r.counter)
            && forall k :: Counter(r, k) == Counter(s, k) - if k == job.kind then 1 else 0
  {
  }

  lemma {:induction false} StepsInv(s: State, e: Event, n: nat)
    requires Inv(s)
    ensures Inv(Steps(s, e, n))
    decreases n
  {
    hide Inv, Step;
    if n > 0 {
      StepInv(s, e);
      StepsInv(Step(s, e), e, n - 1);
    }
  }

  lemma {:induction false} StepsAdd(s: State, e: Event, m: nat, n: nat)
    ensures Steps(s, e, m + n) == Steps(Steps(s, e, m), e, n)
    decreases m
  {
    hide Step;
    if m > 0 { StepsAdd(Step(s, e), e, m - 1, n); }
  }

  /** A worker left alone finishes all its jobs, five steps for each. */
  lemma {:induction false} AllJobsRun(s: State, w: nat)
    requires Inv(s) && w < 3 && s.ws[w].pc == Checking
    ensures var r := Steps(s, WorkerStep(w), 5 * |s.ws[w].queue|);
            && Inv(r) && w < |r.ws| && r.ws[w].pc == Checking && r.ws[w].queue == []
            && r.ws[w].submitted == s.ws[w].submitted == r.ws[w].finished
            && (forall u: nat :: u < 3 && u != w ==> r.ws[u] == s.ws[u])
            && (forall k :: Serves(w, k) ==> Counter(r, k) == Counter(s, k) - Count(s.ws[w].queue, k))
    decreases |s.ws[w].queue|
  {
    hide Inv, Step, Steps, Counter, Serves;
    var e := WorkerStep(w);
    WorkerThere(s, w);
    if s.ws[w].queue == [] {
      NothingLeft(s, w);
    } else {
      JobRuns(s, w);
      var m := Steps(s, e, 5);
      AllJobsRun(m, w);
      StepsAdd(s, e, 5, 5 * |m.ws[w].queue|);
    }
  }

  lemma NothingLeft(s: State, w: nat)
    requires Inv(s) && w < 3 && s.ws[w].queue == []
    ensures s.ws[w].finished == s.ws[w].submitted && Steps(s, WorkerStep(w), 0) == s
  {
    assert WorkerOk(s.ws[w], w);
  }

  lemma WorkerThere(s: State, w: nat)
    requires Inv(s) && w < 3
    ensures |s.ws| == 3
  {
  }

  // ---------------------------------------------------------------- completions

  lemma {:induction false} CallbacksRun(s: State)
    ensures var r := Steps(s, Callback, |s.taken|);
            r.called == s.called + s.taken && r.taken == [] && r.ws == s.ws && r.comp == s.comp
    decreases |s.taken|
  {
    if s.taken == [] {
      assert s.called + [] == s.called;
    } else {
      CallbacksRun(Step(s, Callback));
      assert s.called + [s.taken[0]] + s.taken[1..] == s.called + s.taken;
    }
  }

  /** The event loop takes the list of completions as a whole and calls every one of them back, in order. */
  lemma CompletionsCalled(s: State)
    requires s.taken == []
    ensures var r := Steps(Step(s, PipeRead), Callback, |s.comp|);
            r.called == s.called + s.comp && r.comp == [] && r.taken == [] && r.ws == s.ws
  {
    CallbacksRun(Step(s, PipeRead));
  }
}
