/** The background I/O workers as a protocol between threads: every access to a shared list or
    counter is its own step, and any thread may run between two steps. */
module Bio {
  import opened Options

  datatype Kind = CloseFile | AofFsync | CloseAof | LazyFree | CompCloseFile | CompAofFsync | CompLazyFree

  const WORKERS: nat := 3

  /** bio_job_to_worker. */
  function WorkerOf(k: Kind): nat {
    match k
    case CloseFile => 0
    case AofFsync => 1
    case CloseAof => 1
    case LazyFree => 2
    case CompCloseFile => 0
    case CompAofFsync => 1
    case CompLazyFree => 2
  }

  predicate IsComp(k: Kind) {
    k.CompCloseFile? || k.CompAofFsync? || k.CompLazyFree?
  }

  datatype Job = Job(kind: Kind, arg: nat)

  datatype Thread = Client(id: nat) | WorkerThread

  /** Where a thread that submits, drains or reads a counter stands. */
  datatype ClientPc =
    | Out
    | Adding(job: Job)             // bioSubmitJob, lock held, before listAddNodeTail
    | Counting(job: Job)           // before the counter is incremented
    | Unlocking(w: nat)            // about to release the lock
    | Draining(w: nat, mark: nat)  // bioDrainWorker, lock held, before the length test
    | Drowsy(w: nat, mark: nat)    // bioDrainWorker, in pthread_cond_wait
    | Reading(kind: Kind)          // bioPendingJobsOfType, lock held

  /** Where a worker stands. */
  datatype WorkerPc =
    | Checking                     // loop start, lock held
    | Asleep                       // in pthread_cond_wait
    | Running(job: Job)            // lock released, before the job's effect
    | Processed(job: Job)          // effect done, waiting for the lock
    | Deleting(job: Job)           // lock held, before listDelNode
    | Uncounting(job: Job)         // lock held, before the counter is decremented

  /** One worker: its list and lock, and what has happened to it so far. */
  datatype Worker = Worker(
    queue: seq<Job>, lock: Option<Thread>, pc: WorkerPc,
    submitted: seq<Job>, processed: seq<Job>, finished: seq<Job>)

  /** A completion: the job's worker and its number on that worker. */
  datatype Item = Item(w: nat, index: nat)

  datatype State = State(
    ws: seq<Worker>,
    counter: map<Kind, int>,
    clients: map<nat, ClientPc>,
    comp: seq<Item>,       // bio_comp_list
    taken: seq<Item>,      // the list bioPipeReadJobCompList works through
    called: seq<Item>,     // callbacks run so far
    drains: seq<Item>)     // drains that returned, with the number of jobs submitted before

  function Pc(s: State, t: nat): ClientPc {
    if t in s.clients then s.clients[t] else Out
  }

  function Counter(s: State, k: Kind): int {
    if k in s.counter then s.counter[k] else 0
  }

  predicate Free(s: State, w: nat) {
    w < |s.ws| && s.ws[w].lock == None
  }

  datatype Event =
    | SubmitLock(t: nat, job: Job)
    | DrainLock(t: nat, kind: Kind)
    | ReadLock(t: nat, kind: Kind)
    | ClientStep(t: nat)
    | WorkerStep(w: nat)
    | PipeRead
    | Callback

  /** A client outside takes the lock and starts `pc`. */
  function ClientLock(s: State, t: nat, w: nat, pc: ClientPc): State {
    if Pc(s, t).Out? && Free(s, w)
    then s.(ws := s.ws[w := s.ws[w].(lock := Some(Client(t)))], clients := s.clients[t := pc])
    else s
  }

  /** The worker a client is concerned with. */
  function Target(pc: ClientPc): nat {
    match pc
    case Out => 0
    case Adding(job) => WorkerOf(job.kind)
    case Counting(job) => WorkerOf(job.kind)
    case Unlocking(w) => w
    case Draining(w, _) => w
    case Drowsy(w, _) => w
    case Reading(k) => WorkerOf(k)
  }

  function NextPc(pc: ClientPc, empty: bool): ClientPc {
    match pc
    case Out => Out
    case Adding(job) => Counting(job)
    case Counting(job) => Unlocking(WorkerOf(job.kind))
    case Unlocking(_) => Out
    case Draining(w, mark) => if empty then Unlocking(w) else Drowsy(w, mark)
    case Drowsy(w, mark) => Draining(w, mark)
    case Reading(k) => Unlocking(WorkerOf(k))
  }

  function ClientWorker(v: Worker, t: nat, pc: ClientPc): Worker {
    v.(queue := if pc.Adding? then v.queue + [pc.job] else v.queue,
       submitted := if pc.Adding? then v.submitted + [pc.job] else v.submitted,
       lock := if pc.Unlocking? || (pc.Draining? && v.queue != []) then None
               else if pc.Drowsy? then Some(Client(t))
               else v.lock)
  }

  /** The next step of bioSubmitJob, bioDrainWorker or bioPendingJobsOfType. */
  function ClientNext(s: State, t: nat): State {
    var pc := Pc(s, t);
    var w := Target(pc);
    if pc.Out? || w >= |s.ws| || (pc.Drowsy? && !Free(s, w)) then s else
    var v := s.ws[w];
    s.(ws := s.ws[w := ClientWorker(v, t, pc)],
       clients := s.clients[t := NextPc(pc, v.queue == [])],
       counter := if pc.Counting? then s.counter[pc.job.kind := Counter(s, pc.job.kind) + 1] else s.counter,
       drains := if pc.Draining? && v.queue == [] then s.drains + [Item(w, pc.mark)] else s.drains)
  }

  function NextWorkerPc(v: Worker): WorkerPc {
    match v.pc
    case Checking => if v.queue == [] then Asleep else Running(v.queue[0])
    case Asleep => Checking
    case Running(job) => Processed(job)
    case Processed(job) => Deleting(job)
    case Deleting(job) => Uncounting(job)
    case Uncounting(job) => Checking
  }

  function NextWorker(v: Worker): Worker {
    v.(pc := NextWorkerPc(v),
       lock := if v.pc.Checking? then None
               else if v.pc.Asleep? || v.pc.Processed? then Some(WorkerThread)
               else v.lock,
       queue := if v.pc.Deleting? && v.queue != [] then v.queue[1..] else v.queue,
       processed := if v.pc.Running? then v.processed + [v.pc.job] else v.processed,
       finished := if v.pc.Deleting? then v.finished + [v.pc.job] else v.finished)
  }

  /** The next step of bioProcessBackgroundJobs. */
  function WorkerNext(s: State, w: nat): State {
    if w >= |s.ws| || ((s.ws[w].pc.Asleep? || s.ws[w].pc.Processed?) && !Free(s, w)) then s else
    var v := s.ws[w];
    s.(ws := s.ws[w := NextWorker(v)],
       counter := if v.pc.Uncounting? then s.counter[v.pc.job.kind := Counter(s, v.pc.job.kind) - 1] else s.counter,
       comp := if v.pc.Running? && IsComp(v.pc.job.kind) then s.comp + [Item(w, |v.processed|)] else s.comp)
  }

  /** One step of one thread; a step that is not possible leaves the state alone. */
  function Step(s: State, e: Event): State {
    match e
    case SubmitLock(t, job) => ClientLock(s, t, WorkerOf(job.kind), Adding(job))
    case DrainLock(t, k) =>
      var w := WorkerOf(k);
      ClientLock(s, t, w, Draining(w, if w < |s.ws| then |s.ws[w].submitted| else 0))
    case ReadLock(t, k) => ClientLock(s, t, WorkerOf(k), Reading(k))
    case ClientStep(t) => ClientNext(s, t)
    case WorkerStep(w) => WorkerNext(s, w)
    case PipeRead => if s.taken == [] then s.(taken := s.comp, comp := []) else s
    case Callback => if s.taken == [] then s else s.(called := s.called + [s.taken[0]], taken := s.taken[1..])
  }

  function Run(s: State, es: seq<Event>): State
    decreases |es|
  {
    if es == [] then s else Run(Step(s, es[0]), es[1..])
  }

  const NEW_WORKER: Worker := Worker([], None, Asleep, [], [], [])
  const INIT: State := State([NEW_WORKER, NEW_WORKER, NEW_WORKER], map[], map[], [], [], [], [])

  // ---------------------------------------------------------------- one worker

  predicate HoldsLock(pc: WorkerPc) {
    pc.Checking? || pc.Deleting? || pc.Uncounting?
  }

  /** Every job on worker `w` belongs there, finished jobs are the first ones submitted, and a
      worker busy with a job is busy with the head of its list. */
  predicate WorkerOk(v: Worker, w: nat) {
    && (forall i :: 0 <= i < |v.queue| ==> WorkerOf(v.queue[i].kind) == w)
    && v.finished + v.queue == v.submitted
    && v.processed == v.finished + (if v.pc.Processed? || v.pc.Deleting? then [v.pc.job] else [])
    && (v.pc.Running? || v.pc.Processed? || v.pc.Deleting? ==> v.queue != [] && v.queue[0] == v.pc.job)
    && (HoldsLock(v.pc) <==> v.lock == Some(WorkerThread))
    && (v.pc.Uncounting? ==> WorkerOf(v.pc.job.kind) == w)
  }

  ghost predicate WorkersOk(s: State) {
    |s.ws| == WORKERS && forall w :: 0 <= w < |s.ws| ==> WorkerOk(s.ws[w], w)
  }

  // ---------------------------------------------------------------- locks

  predicate Holds(pc: ClientPc) {
    !pc.Out? && !pc.Drowsy?
  }

  /** A client inside a critical section is named by its lock. */
  predicate ClientOk(s: State, t: nat) {
    var pc := Pc(s, t);
    && (Holds(pc) ==> Target(pc) < |s.ws| && s.ws[Target(pc)].lock == Some(Client(t)))
    && (pc.Draining? || pc.Drowsy? ==> pc.w < |s.ws| && pc.mark <= |s.ws[pc.w].submitted|)
  }

  ghost predicate ClientsOk(s: State) {
    forall t: nat :: ClientOk(s, t)
  }

  /** A client named by a lock is inside its critical section. */
  predicate LockOk(s: State, w: nat)
    requires w < |s.ws|
  {
    var l := s.ws[w].lock;
    l.Some? && l.value.Client? ==> Holds(Pc(s, l.value.id)) && Target(Pc(s, l.value.id)) == w
  }

  ghost predicate LocksOk(s: State) {
    forall w :: 0 <= w < |s.ws| ==> LockOk(s, w)
  }

  // ---------------------------------------------------------------- counters

  function Count(q: seq<Job>, k: Kind): nat {
    if q == [] then 0 else (if q[0].kind == k then 1 else 0) + Count(q[1..], k)
  }

  lemma {:induction false} CountAdd(q: seq<Job>, job: Job, k: Kind)
    ensures Count(q + [job], k) == Count(q, k) + (if job.kind == k then 1 else 0)
  {
    if q == [] {
      assert [job][1..] == [];
    } else {
      assert (q + [job])[1..] == q[1..] + [job];
      CountAdd(q[1..], job, k);
    }
  }

  /** A job deleted from the list and not yet from the counter. */
  function Uncounted(v: Worker, k: Kind): nat {
    if v.pc.Uncounting? && v.pc.job.kind == k then 1 else 0
  }

  /** A job added to the list and not yet to the counter. */
  function Unannounced(s: State, v: Worker, k: Kind): nat {
    if v.lock.Some? && v.lock.value.Client? && Pc(s, v.lock.value.id).Counting?
       && Pc(s, v.lock.value.id).job.kind == k then 1 else 0
  }

  predicate CounterOk(s: State, k: Kind) {
    WorkerOf(k) < |s.ws| &&
    var v := s.ws[WorkerOf(k)];
    Counter(s, k) == Count(v.queue, k) + Uncounted(v, k) - Unannounced(s, v, k)
  }

  ghost predicate CountersOk(s: State) {
    forall k: Kind :: CounterOk(s, k)
  }

  // ---------------------------------------------------------------- completions and drains

  function Items(s: State): seq<Item> {
    s.called + s.taken + s.comp
  }

  predicate ItemOk(s: State, x: Item) {
    && x.w < |s.ws| && x.index < |s.ws[x.w].processed|
    && IsComp(s.ws[x.w].processed[x.index].kind)
  }

  ghost predicate ItemsOk(s: State) {
    && (forall i :: 0 <= i < |Items(s)| ==> ItemOk(s, Items(s)[i]))
    && (forall i, j :: 0 <= i < j < |Items(s)| ==> Items(s)[i] != Items(s)[j])
  }

  predicate DrainOk(s: State, x: Item) {
    x.w < |s.ws| && x.index <= |s.ws[x.w].finished|
  }

  ghost predicate DrainsOk(s: State) {
    forall i :: 0 <= i < |s.drains| ==> DrainOk(s, s.drains[i])
  }

  ghost predicate Inv(s: State) {
    WorkersOk(s) && ClientsOk(s) && LocksOk(s) && CountersOk(s) && ItemsOk(s) && DrainsOk(s)
  }

  lemma InitInv()
    ensures Inv(INIT)
  {
  }

  // ---------------------------------------------------------------- every step keeps it

  /** What a step does to the workers and clients: nothing but these updates. */
  lemma StepFrame(s: State, e: Event)
    requires |s.ws| == WORKERS
    ensures var s' := Step(s, e);
            && |s'.ws| == WORKERS
            && (forall w :: 0 <= w < WORKERS ==>
                  && s.ws[w].submitted <= s'.ws[w].submitted
                  && s.ws[w].processed <= s'.ws[w].processed
                  && s.ws[w].finished <= s'.ws[w].finished)
  {
  }

  lemma ClientWorkerOk(v: Worker, w: nat, t: nat, pc: ClientPc)
    requires WorkerOk(v, w) && !pc.Out? && Target(pc) == w
    requires if pc.Drowsy? then v.lock == None else v.lock == Some(Client(t))
    ensures WorkerOk(ClientWorker(v, t, pc), w)
  {
    if pc.Adding? {
      assert v.finished + (v.queue + [pc.job]) == v.submitted + [pc.job];
    }
  }

  lemma NextWorkerOk(v: Worker, w: nat)
    requires WorkerOk(v, w)
    requires v.pc.Asleep? || v.pc.Processed? ==> v.lock == None
    ensures WorkerOk(NextWorker(v), w)
  {
    if v.pc.Deleting? {
      assert [v.queue[0]] + v.queue[1..] == v.queue;
      assert v.finished + [v.pc.job] + v.queue[1..] == v.submitted;
    }
  }

  lemma LockedWorkerOk(v: Worker, w: nat, t: nat)
    requires WorkerOk(v, w) && v.lock == None
    ensures WorkerOk(v.(lock := Some(Client(t))), w)
  {
  }

  lemma StepWorkerOk(s: State, e: Event, w: nat)
    requires WorkersOk(s) && ClientsOk(s) && w < WORKERS
    ensures |Step(s, e).ws| == WORKERS && WorkerOk(Step(s, e).ws[w], w)
  {
    hide WorkerOk, ClientWorker, NextWorker, NextPc;
    assert WorkerOk(s.ws[w], w);
    var v := s.ws[w];
    if e.WorkerStep? {
      if e.w == w && !((v.pc.Asleep? || v.pc.Processed?) && v.lock != None) { NextWorkerOk(v, w); }
    } else if e.ClientStep? {
      assert ClientOk(s, e.t);
      var pc := Pc(s, e.t);
      if !pc.Out? && Target(pc) == w && (pc.Drowsy? ==> Free(s, w)) { ClientWorkerOk(v, w, e.t, pc); }
    } else if !e.PipeRead? && !e.Callback? && v.lock == None {
      LockedWorkerOk(v, w, e.t);
    }
  }

  lemma StepWorkersOk(s: State, e: Event)
    requires WorkersOk(s) && ClientsOk(s)
    ensures WorkersOk(Step(s, e))
  {
    hide WorkerOk, Step, ClientsOk;
    StepWorkerOk(s, e, 0);
    forall w | 0 <= w < WORKERS
      ensures WorkerOk(Step(s, e).ws[w], w)
    {
      StepWorkerOk(s, e, w);
    }
  }

  // A lock step: the client takes a free lock.

  lemma LockClientOk(s: State, t: nat, w: nat, pc: ClientPc, u: nat)
    requires ClientOk(s, u) && Holds(pc) && Target(pc) == w
    requires pc.Draining? && w < |s.ws| ==> pc.mark <= |s.ws[w].submitted|
    ensures ClientOk(ClientLock(s, t, w, pc), u)
  {
    if u == t {
      assert Pc(s, t).Out? && Free(s, w) ==> Pc(ClientLock(s, t, w, pc), t) == pc;
    } else {
      assert Pc(ClientLock(s, t, w, pc), u) == Pc(s, u);
    }
  }

  lemma LockLockOk(s: State, t: nat, w: nat, pc: ClientPc, x: nat)
    requires x < |s.ws| && LockOk(s, x) && Holds(pc) && Target(pc) == w
    ensures LockOk(ClientLock(s, t, w, pc), x)
  {
    var s' := ClientLock(s, t, w, pc);
    assert forall u: nat :: u != t ==> Pc(s', u) == Pc(s, u);
  }

  // A client's next step.

  lemma NextClientOk(s: State, t: nat, u: nat)
    requires ClientOk(s, u) && ClientOk(s, t)
    ensures ClientOk(ClientNext(s, t), u)
  {
    var s' := ClientNext(s, t);
    if u == t {
      var pc := Pc(s, t);
      if !pc.Out? && !(pc.Drowsy? && !Free(s, Target(pc))) {
        assert Pc(s', t) == NextPc(pc, s.ws[Target(pc)].queue == []);
      }
    } else {
      assert Pc(s', u) == Pc(s, u);
    }
  }

  lemma NextLockOk(s: State, t: nat, x: nat)
    requires x < |s.ws| && LockOk(s, x) && ClientOk(s, t)
    ensures LockOk(ClientNext(s, t), x)
  {
    var s' := ClientNext(s, t);
    assert forall u: nat :: u != t ==> Pc(s', u) == Pc(s, u);
  }

  // A worker's step.

  lemma WorkerClientOk(s: State, w: nat, u: nat)
    requires ClientOk(s, u) && (w < |s.ws| ==> WorkerOk(s.ws[w], w))
    ensures ClientOk(WorkerNext(s, w), u)
  {
    assert Pc(WorkerNext(s, w), u) == Pc(s, u);
  }

  lemma WorkerLockOk(s: State, w: nat, x: nat)
    requires x < |s.ws| && LockOk(s, x)
    ensures LockOk(WorkerNext(s, w), x)
  {
    assert WorkerNext(s, w).clients == s.clients;
  }

  /** The lock a client asks for and where it then stands. */
  function Wanted(s: State, e: Event): (nat, ClientPc)
    requires e.SubmitLock? || e.DrainLock? || e.ReadLock?
  {
    match e
    case SubmitLock(_, job) => (WorkerOf(job.kind), Adding(job))
    case DrainLock(_, k) =>
      (WorkerOf(k), Draining(WorkerOf(k), if WorkerOf(k) < |s.ws| then |s.ws[WorkerOf(k)].submitted| else 0))
    case ReadLock(_, k) => (WorkerOf(k), Reading(k))
  }

  lemma StepClientOk(s: State, e: Event, u: nat)
    requires WorkersOk(s) && ClientsOk(s)
    ensures ClientOk(Step(s, e), u)
  {
    hide ClientOk, WorkerOk, ClientNext, WorkerNext, ClientLock;
    assert ClientOk(s, u);
    if e.WorkerStep? {
      WorkerClientOk(s, e.w, u);
    } else if e.ClientStep? {
      assert ClientOk(s, e.t);
      NextClientOk(s, e.t, u);
    } else if e.PipeRead? || e.Callback? {
      SameClientOk(s, Step(s, e), u);
    } else {
      LockClientOk(s, e.t, Wanted(s, e).0, Wanted(s, e).1, u);
    }
  }

  lemma SameClientOk(s: State, s': State, u: nat)
    requires ClientOk(s, u) && s'.ws == s.ws && s'.clients == s.clients
    ensures ClientOk(s', u)
  {
  }

  lemma StepLockOk(s: State, e: Event, x: nat)
    requires WorkersOk(s) && ClientsOk(s) && LocksOk(s) && x < WORKERS
    ensures |Step(s, e).ws| == WORKERS && LockOk(Step(s, e), x)
  {
    StepFrame(s, e);
    hide ClientOk, LockOk, WorkerOk, ClientNext, WorkerNext, ClientLock;
    assert LockOk(s, x);
    if e.WorkerStep? {
      WorkerLockOk(s, e.w, x);
    } else if e.ClientStep? {
      assert ClientOk(s, e.t);
      NextLockOk(s, e.t, x);
    } else if e.PipeRead? || e.Callback? {
      SameLockOk(s, Step(s, e), x);
    } else {
      LockLockOk(s, e.t, Wanted(s, e).0, Wanted(s, e).1, x);
    }
  }

  lemma SameLockOk(s: State, s': State, x: nat)
    requires x < |s.ws| && LockOk(s, x) && s'.ws == s.ws && s'.clients == s.clients
    ensures LockOk(s', x)
  {
  }

  lemma StepThreadsOk(s: State, e: Event)
    requires WorkersOk(s) && ClientsOk(s) && LocksOk(s)
    ensures ClientsOk(Step(s, e)) && LocksOk(Step(s, e))
  {
    hide WorkersOk, ClientOk, LockOk, Step;
    forall u: nat
      ensures ClientOk(Step(s, e), u)
    {
      StepClientOk(s, e, u);
    }
    StepLockOk(s, e, 0);
    forall x | 0 <= x < WORKERS
      ensures LockOk(Step(s, e), x)
    {
      StepLockOk(s, e, x);
    }
  }

  // Counters.

  lemma LockCounterOk(s: State, t: nat, w: nat, pc: ClientPc, k: Kind)
    requires CounterOk(s, k) && LockOk(s, WorkerOf(k)) && !pc.Counting?
    ensures CounterOk(ClientLock(s, t, w, pc), k)
  {
    hide Count;
    var s' := ClientLock(s, t, w, pc);
    assert forall u: nat :: u != t ==> Pc(s', u) == Pc(s, u);
  }

  /** A client step does not touch the counters of other workers. */
  lemma OtherCounterOk(s: State, t: nat, k: Kind)
    requires CounterOk(s, k) && LockOk(s, WorkerOf(k)) && Target(Pc(s, t)) != WorkerOf(k)
    ensures CounterOk(ClientNext(s, t), k)
  {
    hide Count;
    var s' := ClientNext(s, t);
    assert forall u: nat :: u != t ==> Pc(s', u) == Pc(s, u);
    assert Counter(s', k) == Counter(s, k);
  }

  /** The client inside the critical section is the one whose job may be unannounced. */
  lemma OwnUnannounced(s: State, s': State, v: Worker, t: nat, k: Kind)
    requires Pc(s, t).Drowsy? ==> v.lock == None
    requires Holds(Pc(s, t)) ==> v.lock == Some(Client(t))
    requires !Pc(s, t).Out? && Pc(s', t) == NextPc(Pc(s, t), v.queue == [])
    ensures var pc := Pc(s, t);
            && Unannounced(s, v, k) == (if pc.Counting? && pc.job.kind == k then 1 else 0)
            && Unannounced(s', ClientWorker(v, t, pc), k) == if pc.Adding? && pc.job.kind == k then 1 else 0
  {
  }

  lemma OwnCounterOk(s: State, t: nat, k: Kind)
    requires CounterOk(s, k) && ClientOk(s, t) && Target(Pc(s, t)) == WorkerOf(k)
    requires WorkerOk(s.ws[WorkerOf(k)], WorkerOf(k))
    ensures CounterOk(ClientNext(s, t), k)
  {
    hide Count, WorkerOk, Unannounced, NextPc;
    var s' := ClientNext(s, t);
    var pc := Pc(s, t);
    var v := s.ws[WorkerOf(k)];
    if pc.Adding? {
      CountAdd(v.queue, pc.job, k);
    }
    if s' != s {
      assert Pc(s', t) == NextPc(pc, v.queue == []);
      OwnUnannounced(s, s', v, t, k);
      assert Counter(s', k) == Counter(s, k) + if pc.Counting? && pc.job.kind == k then 1 else 0;
    }
  }

  lemma IdleCounterOk(s: State, w: nat, k: Kind)
    requires CounterOk(s, k) && w < |s.ws| && WorkerOk(s.ws[w], w) && w != WorkerOf(k)
    ensures CounterOk(WorkerNext(s, w), k)
  {
    hide Count, NextWorker;
    assert WorkerNext(s, w).clients == s.clients;
    assert Counter(WorkerNext(s, w), k) == Counter(s, k);
  }

  lemma NextWorkerCount(v: Worker, w: nat, k: Kind)
    requires WorkerOk(v, w)
    ensures var v' := NextWorker(v);
            Count(v'.queue, k) + Uncounted(v', k) == Count(v.queue, k) + (if v.pc.Deleting? then 0 else Uncounted(v', k))
  {
    hide Count;
    if v.pc.Deleting? {
      CountTail(v.queue, k);
    }
  }

  lemma BusyCounterOk(s: State, w: nat, k: Kind)
    requires CounterOk(s, k) && w < |s.ws| && WorkerOk(s.ws[w], w) && w == WorkerOf(k)
    ensures CounterOk(WorkerNext(s, w), k)
  {
    hide Count, NextWorker, WorkerOk;
    var s', v := WorkerNext(s, w), s.ws[w];
    if s' != s {
      var v' := NextWorker(v);
      NextWorkerCount(v, w, k);
      NextWorkerPcs(v, w, k);
      assert Counter(s', k) == Counter(s, k) - Uncounted(v, k);
      assert Unannounced(s', v', k) == Unannounced(s, v, k);
    }
  }

  lemma NextWorkerPcs(v: Worker, w: nat, k: Kind)
    requires WorkerOk(v, w) && (v.pc.Asleep? || v.pc.Processed? ==> v.lock == None)
    ensures var v' := NextWorker(v);
            && (v'.lock == v.lock || (v.lock in {None, Some(WorkerThread)} && v'.lock in {None, Some(WorkerThread)}))
            && (v'.pc.Uncounting? <==> v.pc.Deleting?)
  {
  }

  lemma CountTail(q: seq<Job>, k: Kind)
    requires q != []
    ensures Count(q, k) == (if q[0].kind == k then 1 else 0) + Count(q[1..], k)
  {
  }

  lemma StepCounterOk(s: State, e: Event, k: Kind)
    requires Inv(s)
    ensures CounterOk(Step(s, e), k)
  {
    hide ItemsOk, DrainsOk, CounterOk, LockOk, ClientOk, WorkerOk, ClientNext, WorkerNext, ClientLock, Target;
    var w := WorkerOf(k);
    assert CounterOk(s, k) && LockOk(s, w) && WorkerOk(s.ws[w], w);
    if e.WorkerStep? {
      if e.w < |s.ws| {
        assert WorkerOk(s.ws[e.w], e.w);
        if e.w == w { BusyCounterOk(s, e.w, k); } else { IdleCounterOk(s, e.w, k); }
      } else {
        NoWorker(s, e.w);
      }
    } else if e.ClientStep? {
      assert ClientOk(s, e.t);
      if Target(Pc(s, e.t)) == w { OwnCounterOk(s, e.t, k); } else { OtherCounterOk(s, e.t, k); }
    } else if e.PipeRead? || e.Callback? {
      SameCounterOk(s, Step(s, e), k);
    } else {
      LockCounterOk(s, e.t, Wanted(s, e).0, Wanted(s, e).1, k);
    }
  }

  lemma NoWorker(s: State, w: nat)
    requires w >= |s.ws|
    ensures WorkerNext(s, w) == s
  {
  }

  lemma SameCounterOk(s: State, s': State, k: Kind)
    requires CounterOk(s, k) && s'.ws == s.ws && s'.clients == s.clients && s'.counter == s.counter
    ensures CounterOk(s', k)
  {
  }

  lemma StepCountersOk(s: State, e: Event)
    requires Inv(s)
    ensures CountersOk(Step(s, e))
  {
    hide CounterOk, Inv, Step;
    forall k: Kind
      ensures CounterOk(Step(s, e), k)
    {
      StepCounterOk(s, e, k);
    }
  }

  // Completions and drains.

  /** The completion list only moves from one list to the next, or gains the job just run. */
  lemma ItemsStep(s: State, e: Event)
    ensures var s' := Step(s, e);
            Items(s') == Items(s) + if e.WorkerStep? && e.w < |s.ws| && s.ws[e.w].pc.Running?
                                       && IsComp(s.ws[e.w].pc.job.kind)
                                    then [Item(e.w, |s.ws[e.w].processed|)] else []
  {
    hide ClientWorker, NextWorker, NextPc;
  }

  lemma RunningProcesses(s: State, w: nat)
    requires w < |s.ws| && s.ws[w].pc.Running?
    ensures var s' := WorkerNext(s, w);
            |s'.ws| == |s.ws| && s'.ws[w].processed == s.ws[w].processed + [s.ws[w].pc.job]
  {
  }

  lemma StepItemsOk(s: State, e: Event)
    requires ItemsOk(s) && WorkersOk(s)
    ensures ItemsOk(Step(s, e))
  {
    StepFrame(s, e);
    ItemsStep(s, e);
    if e.WorkerStep? && e.w < |s.ws| && s.ws[e.w].pc.Running? { RunningProcesses(s, e.w); }
    hide WorkerOk, ClientNext, WorkerNext, ClientLock, Items;
  }

  lemma StepDrainsOk(s: State, e: Event)
    requires DrainsOk(s) && ClientsOk(s) && WorkersOk(s)
    ensures DrainsOk(Step(s, e))
  {
    StepFrame(s, e);
    DrainsStep(s, e);
    if e.ClientStep? {
      assert ClientOk(s, e.t);
      var pc := Pc(s, e.t);
      if pc.Draining? { assert WorkerOk(s.ws[pc.w], pc.w); }
    }
    hide ClientNext, WorkerNext, ClientLock;
  }

  lemma DrainsStep(s: State, e: Event)
    ensures Step(s, e).drains == s.drains +
            if e.ClientStep? && Pc(s, e.t).Draining? && Pc(s, e.t).w < |s.ws| && s.ws[Pc(s, e.t).w].queue == []
            then [Item(Pc(s, e.t).w, Pc(s, e.t).mark)] else []
  {
    hide ClientWorker, NextWorker, NextPc;
  }

  lemma StepInv(s: State, e: Event)
    requires Inv(s)
    ensures Inv(Step(s, e))
  {
    hide WorkersOk, ClientsOk, LocksOk, CountersOk, ItemsOk, DrainsOk, Step;
    StepWorkersOk(s, e);
    StepThreadsOk(s, e);
    StepCountersOk(s, e);
    StepItemsOk(s, e);
    StepDrainsOk(s, e);
  }

  lemma {:induction false} RunInv(s: State, es: seq<Event>)
    requires Inv(s)
    ensures Inv(Run(s, es))
    decreases |es|
  {
    hide Inv, Step;
    if es != [] {
      StepInv(s, es[0]);
      RunInv(Step(s, es[0]), es[1..]);
    }
  }

  // ---------------------------------------------------------------- what callers rely on

  /** In every interleaving, whenever a list's lock is free or its reader holds it, each counter
      is the number of jobs of its type queued or running. */
  lemma CountersExact(es: seq<Event>, k: Kind)
    ensures var s := Run(INIT, es);
            |s.ws| == WORKERS &&
            var v := s.ws[WorkerOf(k)];
            (v.lock == None || (v.lock.value.Client? && Pc(s, v.lock.value.id) == Reading(k))) ==>
              Counter(s, k) == Count(v.queue, k)
  {
    hide Run;
    InitInv();
    RunInv(INIT, es);
    var s := Run(INIT, es);
    assert CounterOk(s, k);
    assert WorkerOk(s.ws[WorkerOf(k)], WorkerOf(k));
  }

  /** Jobs of one worker finish in submission order, and what is not finished is still listed. */
  lemma FinishInOrder(es: seq<Event>, w: nat)
    requires w < WORKERS
    ensures var s := Run(INIT, es);
            |s.ws| == WORKERS && s.ws[w].finished + s.ws[w].queue == s.ws[w].submitted
  {
    hide Run;
    InitInv();
    RunInv(INIT, es);
    assert WorkerOk(Run(INIT, es).ws[w], w);
  }

  /** When bioDrainWorker returns, every job submitted to the worker before the call is finished. */
  lemma DrainWaits(es: seq<Event>, t: nat)
    ensures var s := Run(INIT, es);
            var s' := Step(s, ClientStep(t));
            Pc(s, t).Draining? && Pc(s', t).Unlocking? ==>
              Pc(s, t).w < |s.ws| &&
              var v := s.ws[Pc(s, t).w];
              Pc(s, t).mark <= |v.submitted| && v.finished == v.submitted
  {
    hide Run;
    InitInv();
    RunInv(INIT, es);
    var s := Run(INIT, es);
    assert ClientOk(s, t);
    if Pc(s, t).Draining? {
      assert WorkerOk(s.ws[Pc(s, t).w], Pc(s, t).w);
    }
  }

  /** Each completion callback runs at most once, and only when every job submitted earlier to
      its worker is finished. */
  lemma CallbacksOnce(es: seq<Event>, i: nat, j: nat)
    requires i < |Run(INIT, es).called| && j < |Run(INIT, es).called|
    ensures var s := Run(INIT, es);
            var x := s.called[i];
            && (i != j ==> s.called[i] != s.called[j])
            && x.w < |s.ws| == WORKERS && x.index < |s.ws[x.w].submitted|
            && IsComp(s.ws[x.w].submitted[x.index].kind)
            && s.ws[x.w].submitted[..x.index] <= s.ws[x.w].finished
  {
    hide Run;
    InitInv();
    RunInv(INIT, es);
    var s := Run(INIT, es);
    assert Items(s)[i] == s.called[i] && Items(s)[j] == s.called[j];
    var x := s.called[i];
    assert ItemOk(s, x);
    var v := s.ws[x.w];
    assert WorkerOk(v, x.w);
    assert v.processed <= v.submitted;
    assert v.submitted[..x.index] == v.finished[..x.index];
  }
}
