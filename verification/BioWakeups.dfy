/** Signals of the background workers: a worker and those who drain it wait on one condition variable, and
    every signal wakes one waiter, whichever it is. */
module BioWakeups {
  import opened Options

  datatype Position = Waits | Roused | Busy

  /** One worker: its jobs, where it stands, and who drains it; a drainer waits or has been woken. */
  datatype State = State(jobs: nat, worker: Position, drains: map<nat, bool>)

  datatype Waiter = TheWorker | Drainer(id: nat)

  /** What a thread does while it holds the lock, from taking it to waiting or unlocking. */
  datatype Event =
    | Submit(pick: Option<Waiter>)     // bioSubmitJob; the signal goes to `pick`
    | Resume                           // the woken worker has the lock again
    | Finish(pick: Option<Waiter>)     // the worker deletes the job it ran and signals
    | Drain(id: nat)                   // bioDrainWorker is called
    | Recheck(id: nat)                 // a woken drainer has the lock again
    | Spurious(waiter: Waiter)         // pthread_cond_wait returns without a signal

  const INIT: State := State(0, Waits, map[])

  predicate Waiting(s: State, w: Waiter) {
    match w
    case TheWorker => s.worker == Waits
    case Drainer(id) => id in s.drains && s.drains[id]
  }

  /** A signal goes to some waiter, and to nobody only when nobody waits. */
  ghost predicate CanPick(s: State, pick: Option<Waiter>) {
    match pick
    case None => forall w :: !Waiting(s, w)
    case Some(w) => Waiting(s, w)
  }

  function Woken(s: State, w: Waiter): State {
    match w
    case TheWorker => s.(worker := Roused)
    case Drainer(id) => s.(drains := s.drains[id := false])
  }

  function Signalled(s: State, pick: Option<Waiter>): State {
    match pick
    case None => s
    case Some(w) => Woken(s, w)
  }

  /** The worker at the start of its loop, with the lock. */
  function Looped(s: State): State {
    s.(worker := if s.jobs == 0 then Waits else Busy)
  }

  /** A drainer tests the length of the list, with the lock. */
  function Tested(s: State, id: nat): State {
    s.(drains := if s.jobs == 0 then s.drains - {id} else s.drains[id := true])
  }

  /** A step that is not possible leaves the state alone. */
  ghost function Step(s: State, e: Event): State {
    match e
    case Submit(pick) => if CanPick(s, pick) then Signalled(s.(jobs := s.jobs + 1), pick) else s
    case Resume => if s.worker == Roused then Looped(s) else s
    case Finish(pick) =>
      if s.worker == Busy && s.jobs > 0 && CanPick(s, pick) then Looped(Signalled(s.(jobs := s.jobs - 1), pick)) else s
    case Drain(id) => if id in s.drains then s else Tested(s, id)
    case Recheck(id) => if id in s.drains && !s.drains[id] then Tested(s, id) else s
    case Spurious(w) => if Waiting(s, w) then Woken(s, w) else s
  }

  ghost function Run(s: State, es: seq<Event>): State
    decreases |es|
  {
    if es == [] then s else Run(Step(s, es[0]), es[1..])
  }

  // ---------------------------------------------------------------- what must not happen

  /** The list has jobs and nobody will look at it. */
  ghost predicate Stuck(s: State) {
    s.jobs > 0 && s.worker == Waits && forall id :: id in s.drains ==> s.drains[id]
  }

  /** Somebody waits for the list to become empty, which it is. */
  ghost predicate Forgotten(s: State) {
    s.jobs == 0 && exists id :: id in s.drains && s.drains[id]
  }

  /** Only these drain the worker. */
  ghost predicate DrainedBy(es: seq<Event>, ids: set<nat>) {
    forall i :: 0 <= i < |es| && es[i].Drain? ==> es[i].id in ids
  }

  // ---------------------------------------------------------------- one drainer

  /** A worker that waits has nothing to do, and then nobody else waits. */
  ghost predicate Inv(s: State, a: nat) {
    && s.drains.Keys <= {a}
    && (s.worker == Waits ==> s.jobs == 0) && (s.worker == Busy ==> s.jobs > 0)
    && (a in s.drains && s.drains[a] ==> s.jobs > 0)
  }

  lemma StepInv(s: State, e: Event, a: nat)
    requires Inv(s, a) && (e.Drain? ==> e.id == a)
    ensures Inv(Step(s, e), a)
  {
    if (e.Submit? || e.Finish?) && e.pick.None? && CanPick(s, e.pick) {
      assert !Waiting(s, TheWorker) && !Waiting(s, Drainer(a));
    }
  }

  lemma {:induction false} RunInv(s: State, es: seq<Event>, a: nat)
    requires Inv(s, a) && DrainedBy(es, {a})
    ensures Inv(Run(s, es), a)
    decreases |es|
  {
    hide Inv, Step;
    if es != [] {
      StepInv(s, es[0], a);
      RunInv(Step(s, es[0]), es[1..], a);
    }
  }

  lemma InvIsFine(s: State, a: nat)
    requires Inv(s, a)
    ensures !Stuck(s) && !Forgotten(s)
  {
  }

  /** From any such state, without another job, the threads that can run finish the list and the drainer
      returns. */
  lemma {:induction false} AllFinish(s: State, a: nat) returns (es: seq<Event>)
    requires Inv(s, a)
    ensures var r := Run(s, es); r.jobs == 0 && r.drains == map[] && r.worker == Waits
    ensures forall i :: 0 <= i < |es| ==> es[i].Resume? || es[i].Finish? || es[i].Recheck?
    decreases s.jobs, if s.worker == Roused then 1 else 0, |s.drains|
  {
    if s.worker == Roused {
      es := Continued(s, a, Resume);
    } else if s.jobs > 0 {
      var pick := if a in s.drains && s.drains[a] then Some(Drainer(a)) else None;
      assert forall id :: id in s.drains ==> id == a;
      assert CanPick(s, pick);
      es := Continued(s, a, Finish(pick));
    } else if a in s.drains {
      assert s.drains.Keys == {a};
      assert s.drains - {a} == map[];
      assert |s.drains - {a}| < |s.drains|;
      es := Continued(s, a, Recheck(a));
    } else {
      assert s.drains.Keys == {};
      es := [];
    }
  }

  lemma {:induction false} Continued(s: State, a: nat, e: Event) returns (es: seq<Event>)
    requires Inv(s, a) && (e.Resume? || e.Finish? || e.Recheck?)
    requires var t := Step(s, e);
             || t.jobs < s.jobs
             || (t.jobs == s.jobs && s.worker == Roused && t.worker != Roused)
             || (t.jobs == s.jobs && t.worker == s.worker && |t.drains| < |s.drains|)
    ensures var r := Run(s, es); r.jobs == 0 && r.drains == map[] && r.worker == Waits
    ensures forall i :: 0 <= i < |es| ==> es[i].Resume? || es[i].Finish? || es[i].Recheck?
    decreases s.jobs, if s.worker == Roused then 1 else 0, |s.drains|, 0
  {
    StepInv(s, e, a);
    var more := AllFinish(Step(s, e), a);
    es := [e] + more;
    assert es[1..] == more;
  }

  // ---------------------------------------------------------------- two drainers

  /** Two drain the worker; its last signal wakes one of them, and the next job's signal wakes the other. */
  function LostSignals(a: nat, b: nat): seq<Event> {
    [Submit(Some(TheWorker)), Drain(a), Drain(b), Resume,
     Finish(Some(Drainer(a))), Submit(Some(Drainer(b))), Recheck(b), Recheck(a)]
  }

  /** Then the job is not run, and both wait for it. */
  lemma TwoGetStuck(a: nat, b: nat)
    requires a != b
    ensures Stuck(Run(INIT, LostSignals(a, b))) && Run(INIT, LostSignals(a, b)).drains == map[a := true, b := true]
  {
    hide Step, Stuck;
    var es := LostSignals(a, b);
    var s4, s8 := State(1, Busy, map[a := true, b := true]), State(1, Waits, map[a := true, b := true]);
    BothDrain(a, b);
    Run4(INIT, es);
    BothWaitAgain(a, b);
    Run4(s4, es[4..]);
    assert es[4..][4..] == [] && Run(s8, []) == s8;
    assert Stuck(s8) by { NobodyLooks(a, b); }
  }

  /** A job is submitted, both drainers wait for it, and the worker takes it. */
  lemma BothDrain(a: nat, b: nat)
    requires a != b
    ensures Step(Step(Step(Step(INIT, Submit(Some(TheWorker))), Drain(a)), Drain(b)), Resume) ==
            State(1, Busy, map[a := true, b := true])
  {
    assert Waiting(INIT, TheWorker);
    var s1 := Step(INIT, Submit(Some(TheWorker)));
    assert s1 == State(1, Roused, map[]);
    var s2 := Step(s1, Drain(a));
    assert s2 == State(1, Roused, map[a := true]);
    assert Step(s2, Drain(b)) == State(1, Roused, map[a := true, b := true]);
  }

  /** It finishes and wakes one of them; the next submission wakes the other; both look and wait again. */
  lemma BothWaitAgain(a: nat, b: nat)
    requires a != b
    ensures var s4 := State(1, Busy, map[a := true, b := true]);
            Step(Step(Step(Step(s4, Finish(Some(Drainer(a)))), Submit(Some(Drainer(b)))), Recheck(b)), Recheck(a)) ==
            State(1, Waits, map[a := true, b := true])
  {
    var s5 := Step(State(1, Busy, map[a := true, b := true]), Finish(Some(Drainer(a))));
    assert s5 == State(0, Waits, map[a := false, b := true]);
    var s6 := Step(s5, Submit(Some(Drainer(b))));
    assert s6 == State(1, Waits, map[a := false, b := false]);
    assert Step(s6, Recheck(b)) == State(1, Waits, map[a := false, b := true]);
  }

  lemma NobodyLooks(a: nat, b: nat)
    ensures Stuck(State(1, Waits, map[a := true, b := true]))
  {
  }

  lemma Run4(s: State, es: seq<Event>)
    requires |es| >= 4
    ensures Run(s, es) == Run(Step(Step(Step(Step(s, es[0]), es[1]), es[2]), es[3]), es[4..])
  {
    hide Step;
    var s1, s2 := Step(s, es[0]), Step(Step(s, es[0]), es[1]);
    assert Run(s, es) == Run(s1, es[1..]) == Run(s2, es[2..]) by { assert es[1..][1..] == es[2..]; }
    assert Run(s2, es[2..]) == Run(Step(s2, es[2]), es[3..]) by { assert es[2..][1..] == es[3..]; }
    assert es[3..][1..] == es[4..];
  }

  /** It stays so until another job is submitted or a wait ends without a signal. */
  lemma StuckStays(s: State, e: Event)
    requires Stuck(s) && !e.Submit? && !e.Spurious?
    ensures Stuck(Step(s, e)) && Step(s, e).jobs == s.jobs
  {
  }

  // ---------------------------------------------------------------- exactly when

  lemma OneElement(ids: set<nat>, a: nat)
    requires a in ids && |ids| <= 1
    ensures ids == {a}
  {
    assert |ids - {a}| == 0;
  }

  lemma TwoElements(ids: set<nat>) returns (a: nat, b: nat)
    requires |ids| > 1
    ensures a in ids && b in ids && a != b
  {
    a :| a in ids;
    assert |ids - {a}| > 0;
    b :| b in ids - {a};
  }

  /** No run leaves jobs that nobody will look at, or a drainer waiting on an empty list, exactly when at most
      one thread ever drains the worker. */
  lemma SignalsSufficeIff(ids: set<nat>)
    ensures (forall es :: DrainedBy(es, ids) ==> !Stuck(Run(INIT, es)) && !Forgotten(Run(INIT, es))) <==> |ids| <= 1
  {
    hide Run, Stuck, Forgotten, Inv;
    if |ids| <= 1 {
      var a: nat := if ids == {} then 0 else PickOne(ids);
      assert ids <= {a} by { if ids != {} { OneElement(ids, a); } }
      forall es | DrainedBy(es, ids)
        ensures !Stuck(Run(INIT, es)) && !Forgotten(Run(INIT, es))
      {
        assert DrainedBy(es, {a});
        InitInv(a);
        RunInv(INIT, es, a);
        InvIsFine(Run(INIT, es), a);
      }
    } else {
      var a, b := TwoElements(ids);
      TwoGetStuck(a, b);
      assert DrainedBy(LostSignals(a, b), ids);
    }
  }

  lemma InitInv(a: nat)
    ensures Inv(INIT, a)
  {
  }

  ghost function PickOne(ids: set<nat>): (a: nat)
    requires ids != {}
    ensures a in ids
  {
    var a :| a in ids; a
  }
}
