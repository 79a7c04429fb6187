/** The worker pool of the index builder, as steps of any number of threads.
    Models Enterprise/RocksDBEngine/IndexBuilderThreadPool.cpp. Each step is what one thread does
    between two points at which others may run: a load outside the lock, or one locked section. */
module ThreadPool {
  type Task = nat

  datatype Worker = Waiting | Running(task: Task) | Returned

  /** The pool, with its history. `probed` holds the submissions that have passed the first check
      of the shutdown flag and not yet taken the lock. */
  datatype Pool = Pool(queue: seq<Task>, shutdown: bool, workers: seq<Worker>, probed: multiset<Task>,
                       accepted: seq<Task>, dequeued: seq<Task>, executed: multiset<Task>)

  datatype Step =
    | Probe(task: Task)        // submit: the check before the lock
    | Enqueue(task: Task)      // submit: the check and push under the lock
    | Shutdown                 // the compare-exchange of the flag
    | Wake(worker: nat)        // workerLoop: the locked section, at any wake-up
    | Complete(worker: nat)    // workerLoop: the end of the task it was running

  function Start(numThreads: nat): Pool {
    Pool([], false, seq(numThreads, _ => Waiting), multiset{}, [], [], multiset{})
  }

  /** A step its thread cannot take changes nothing. */
  function Take(p: Pool, s: Step): Pool {
    match s
    case Probe(t) =>
      if p.shutdown then p else p.(probed := p.probed + multiset{t})
    case Enqueue(t) =>
      if t !in p.probed then p
      else if p.shutdown then p.(probed := p.probed - multiset{t})
      else p.(probed := p.probed - multiset{t}, queue := p.queue + [t], accepted := p.accepted + [t])
    case Shutdown => p.(shutdown := true)
    case Wake(w) =>
      if w >= |p.workers| || p.workers[w] != Waiting then p
      else if p.shutdown && p.queue == [] then p.(workers := p.workers[w := Returned])
      else if p.queue == [] then p
      else p.(workers := p.workers[w := Running(p.queue[0])], queue := p.queue[1..],
              dequeued := p.dequeued + [p.queue[0]])
    case Complete(w) =>
      if w >= |p.workers| || !p.workers[w].Running? then p
      else p.(workers := p.workers[w := Waiting], executed := p.executed + multiset{p.workers[w].task})
  }

  function Run(numThreads: nat, steps: seq<Step>): Pool {
    if steps == [] then Start(numThreads) else Take(Run(numThreads, steps[..|steps| - 1]), steps[|steps| - 1])
  }

  function Has(w: Worker, t: Task): nat {
    if w == Running(t) then 1 else 0
  }

  /** How many workers are running task t now. */
  function InHand(workers: seq<Worker>, t: Task): nat {
    if workers == [] then 0 else InHand(workers[..|workers| - 1], t) + Has(workers[|workers| - 1], t)
  }

  ghost predicate SomeReturned(p: Pool) {
    exists w :: 0 <= w < |p.workers| && p.workers[w] == Returned
  }

  ghost predicate AllReturned(p: Pool) {
    forall w :: 0 <= w < |p.workers| ==> p.workers[w] == Returned
  }

  /** Tasks leave in the order they were accepted, each taken task is in hand or done, and a
      worker returns only from an empty pool that is shut down. */
  ghost predicate Sound(p: Pool) {
    && p.accepted == p.dequeued + p.queue
    && (forall t :: multiset(p.dequeued)[t] == p.executed[t] + InHand(p.workers, t))
    && (SomeReturned(p) ==> p.shutdown && p.queue == [])
  }

  lemma {:induction false} InHandUpdate(workers: seq<Worker>, w: nat, v: Worker, t: Task)
    requires w < |workers|
    ensures InHand(workers[w := v], t) == InHand(workers, t) - Has(workers[w], t) + Has(v, t)
  {
    var m := |workers| - 1;
    var after := workers[w := v];
    if w == m {
      assert after[..m] == workers[..m];
    } else {
      InHandUpdate(workers[..m], w, v, t);
      assert after[..m] == workers[..m][w := v];
    }
  }

  lemma {:induction false} InHandOfIdle(workers: seq<Worker>, t: Task)
    requires forall w :: 0 <= w < |workers| ==> !workers[w].Running?
    ensures InHand(workers, t) == 0
  {
    if workers != [] { InHandOfIdle(workers[..|workers| - 1], t); }
  }

  lemma ReturnIsSound(p: Pool, w: nat)
    requires Sound(p) && w < |p.workers| && p.workers[w] == Waiting && p.queue == [] && p.shutdown
    ensures Sound(p.(workers := p.workers[w := Returned]))
  {
    forall t ensures InHand(p.workers[w := Returned], t) == InHand(p.workers, t) {
      InHandUpdate(p.workers, w, Returned, t);
    }
  }

  lemma DequeueAccounts(p: Pool, w: nat, first: Task)
    requires Sound(p) && w < |p.workers| && p.workers[w] == Waiting
    ensures forall t :: multiset(p.dequeued + [first])[t] == p.executed[t] + InHand(p.workers[w := Running(first)], t)
  {
    forall t ensures multiset(p.dequeued + [first])[t] == p.executed[t] + InHand(p.workers[w := Running(first)], t) {
      InHandUpdate(p.workers, w, Running(first), t);
      assert multiset(p.dequeued + [first])[t] == multiset(p.dequeued)[t] + Has(Running(first), t);
    }
  }

  lemma DequeueShifts(dequeued: seq<Task>, queue: seq<Task>)
    requires queue != []
    ensures dequeued + [queue[0]] + queue[1..] == dequeued + queue
  {
  }

  lemma DequeueIsSound(p: Pool, w: nat)
    requires Sound(p) && w < |p.workers| && p.workers[w] == Waiting && p.queue != []
    ensures Sound(Take(p, Wake(w)))
  {
    var q := Take(p, Wake(w));
    DequeueAccounts(p, w, p.queue[0]);
    DequeueShifts(p.dequeued, p.queue);
    assert !SomeReturned(p);
    forall v | 0 <= v < |q.workers| ensures q.workers[v] != Returned {
      if v != w { assert q.workers[v] == p.workers[v]; }
    }
  }

  lemma CompleteIsSound(p: Pool, w: nat)
    requires Sound(p) && w < |p.workers| && p.workers[w].Running?
    ensures Sound(Take(p, Complete(w)))
  {
    var q := Take(p, Complete(w));
    forall t ensures multiset(q.dequeued)[t] == q.executed[t] + InHand(q.workers, t) {
      InHandUpdate(p.workers, w, Waiting, t);
    }
    if SomeReturned(q) {
      var v :| 0 <= v < |q.workers| && q.workers[v] == Returned;
      assert p.workers[v] == Returned;
    }
  }

  lemma EnqueueIsSound(p: Pool, t: Task)
    requires Sound(p)
    ensures Sound(Take(p, Enqueue(t)))
  {
    assert p.dequeued + (p.queue + [t]) == p.dequeued + p.queue + [t];
  }

  lemma StartIsSound(numThreads: nat)
    ensures Sound(Start(numThreads))
  {
    var p := Start(numThreads);
    forall t ensures InHand(p.workers, t) == 0 {
      InHandOfIdle(p.workers, t);
    }
  }

  lemma StepIsSound(p: Pool, s: Step)
    requires Sound(p)
    ensures Sound(Take(p, s)) && |Take(p, s).workers| == |p.workers|
  {
    match s
    case Wake(w) =>
      if w < |p.workers| && p.workers[w] == Waiting {
        if p.queue != [] { DequeueIsSound(p, w); } else if p.shutdown { ReturnIsSound(p, w); }
      }
    case Complete(w) =>
      if w < |p.workers| && p.workers[w].Running? { CompleteIsSound(p, w); }
    case Enqueue(t) => EnqueueIsSound(p, t);
    case _ =>
  }

  /** In every run, of any number of workers and submitters: accepted tasks are taken once each in
      acceptance order, and each taken task is being run by one worker or was run. */
  lemma {:induction false} EveryRunIsSound(numThreads: nat, steps: seq<Step>)
    ensures Sound(Run(numThreads, steps))
    ensures |Run(numThreads, steps).workers| == numThreads
  {
    if steps == [] {
      StartIsSound(numThreads);
    } else {
      var m := |steps| - 1;
      EveryRunIsSound(numThreads, steps[..m]);
      StepIsSound(Run(numThreads, steps[..m]), steps[m]);
    }
  }

  lemma RunOn(numThreads: nat, steps: seq<Step>, more: seq<Step>)
    requires more != []
    ensures Run(numThreads, steps + more) == Take(Run(numThreads, steps + more[..|more| - 1]), more[|more| - 1])
  {
    assert (steps + more)[..|steps + more| - 1] == steps + more[..|more| - 1];
  }

  lemma ClosedStays(p: Pool, s: Step)
    requires Sound(p) && SomeReturned(p)
    ensures SomeReturned(Take(p, s)) && Take(p, s).queue == [] && Take(p, s).accepted == p.accepted
  {
    var w :| 0 <= w < |p.workers| && p.workers[w] == Returned;
    assert Take(p, s).workers[w] == Returned;
  }

  /** Once any worker has returned, no submission is accepted and the queue stays empty, whatever
      submitters and workers still do. */
  lemma {:induction false} ReturnedWorkerClosesPool(numThreads: nat, steps: seq<Step>, more: seq<Step>)
    requires SomeReturned(Run(numThreads, steps))
    ensures SomeReturned(Run(numThreads, steps + more))
    ensures Run(numThreads, steps + more).queue == []
    ensures Run(numThreads, steps + more).accepted == Run(numThreads, steps).accepted
    decreases |more|
  {
    EveryRunIsSound(numThreads, steps);
    if more == [] {
      assert steps + more == steps;
    } else {
      var m := |more| - 1;
      ReturnedWorkerClosesPool(numThreads, steps, more[..m]);
      EveryRunIsSound(numThreads, steps + more[..m]);
      RunOn(numThreads, steps, more);
      ClosedStays(Run(numThreads, steps + more[..m]), more[m]);
    }
  }

  lemma AllReturnedStep(p: Pool, s: Step)
    requires AllReturned(p)
    ensures var q := Take(p, s); q.workers == p.workers && q.executed == p.executed && q.dequeued == p.dequeued
  {
  }

  /** With all workers returned nothing is taken or run any more. */
  lemma {:induction false} AllReturnedStays(numThreads: nat, steps: seq<Step>, more: seq<Step>)
    requires AllReturned(Run(numThreads, steps))
    ensures Run(numThreads, steps + more).workers == Run(numThreads, steps).workers
    ensures Run(numThreads, steps + more).executed == Run(numThreads, steps).executed
    ensures Run(numThreads, steps + more).dequeued == Run(numThreads, steps).dequeued
    decreases |more|
  {
    if more == [] {
      assert steps + more == steps;
    } else {
      var m := |more| - 1;
      AllReturnedStays(numThreads, steps, more[..m]);
      AllReturnedStep(Run(numThreads, steps + more[..m]), more[m]);
      RunOn(numThreads, steps, more);
    }
  }

  /** When all workers of a pool that has some have returned, exactly the accepted tasks were run,
      each once, and all of that remains so whatever is called. */
  lemma AllReturnedMeansAllDone(numThreads: nat, steps: seq<Step>, more: seq<Step>)
    requires numThreads > 0 && AllReturned(Run(numThreads, steps))
    ensures multiset(Run(numThreads, steps).accepted) == Run(numThreads, steps).executed
    ensures Run(numThreads, steps).dequeued == Run(numThreads, steps).accepted
    ensures AllReturned(Run(numThreads, steps + more))
    ensures Run(numThreads, steps + more).accepted == Run(numThreads, steps).accepted
    ensures Run(numThreads, steps + more).executed == Run(numThreads, steps).executed
  {
    var p := Run(numThreads, steps);
    EveryRunIsSound(numThreads, steps);
    assert p.workers[0] == Returned;
    forall t ensures multiset(p.accepted)[t] == p.executed[t] {
      InHandOfIdle(p.workers, t);
    }
    ReturnedWorkerClosesPool(numThreads, steps, more);
    AllReturnedStays(numThreads, steps, more);
  }

  // ---------- what a run's steps do ----------

  lemma RunSnoc(numThreads: nat, steps: seq<Step>, s: Step)
    ensures Run(numThreads, steps + [s]) == Take(Run(numThreads, steps), s)
  {
    assert (steps + [s])[..|steps|] == steps;
  }

  lemma LastOr(steps: seq<Step>, s: Step)
    requires steps != []
    ensures s in steps <==> s in steps[..|steps| - 1] || steps[|steps| - 1] == s
  {
    assert steps == steps[..|steps| - 1] + [steps[|steps| - 1]];
  }

  /** The pool is shut down if and only if `shutdown` was called. */
  lemma {:induction false} ShutdownIff(numThreads: nat, steps: seq<Step>)
    ensures Run(numThreads, steps).shutdown <==> Shutdown in steps
  {
    if steps != [] {
      ShutdownIff(numThreads, steps[..|steps| - 1]);
      LastOr(steps, Shutdown);
    }
  }

  /** A submission that runs through is accepted, as the last, if and only if the pool was not shut
      down; one interrupted between its two checks is refused if the shutdown came meanwhile. */
  lemma SubmittedIff(numThreads: nat, steps: seq<Step>, t: Task)
    ensures var before, after := Run(numThreads, steps), Run(numThreads, steps + [Probe(t)] + [Enqueue(t)]);
            && (Shutdown !in steps ==>
                  after.accepted == before.accepted + [t] && after.queue == before.queue + [t])
            && (Shutdown in steps && t !in before.probed ==> after == before)
    ensures Run(numThreads, steps + [Probe(t)] + [Shutdown] + [Enqueue(t)]).accepted ==
            Run(numThreads, steps).accepted
  {
    ShutdownIff(numThreads, steps);
    RunSnoc(numThreads, steps, Probe(t));
    RunSnoc(numThreads, steps + [Probe(t)], Enqueue(t));
    RunSnoc(numThreads, steps + [Probe(t)], Shutdown);
    RunSnoc(numThreads, steps + [Probe(t)] + [Shutdown], Enqueue(t));
  }

  // ---------- the workers left to themselves ----------

  function Weight(w: Worker): nat {
    match w
    case Waiting => 1
    case Running(_) => 2
    case Returned => 0
  }

  function Weights(workers: seq<Worker>): nat {
    if workers == [] then 0 else Weights(workers[..|workers| - 1]) + Weight(workers[|workers| - 1])
  }

  lemma {:induction false} WeightsUpdate(workers: seq<Worker>, w: nat, v: Worker)
    requires w < |workers|
    ensures Weights(workers[w := v]) == Weights(workers) - Weight(workers[w]) + Weight(v)
  {
    var m := |workers| - 1;
    var after := workers[w := v];
    if w == m {
      assert after[..m] == workers[..m];
    } else {
      WeightsUpdate(workers[..m], w, v);
      assert after[..m] == workers[..m][w := v];
    }
  }

  function Left(p: Pool): nat {
    2 * |p.queue| + Weights(p.workers)
  }

  predicate IsWorkerStep(s: Step) {
    s.Wake? || s.Complete?
  }

  predicate WorkerSteps(steps: seq<Step>) {
    forall i :: 0 <= i < |steps| ==> steps[i].Wake? || steps[i].Complete?
  }

  /** Nothing is queued or being run; and nobody waits any more if the pool is shut down. */
  ghost predicate Settled(p: Pool) {
    && p.queue == []
    && (forall w :: 0 <= w < |p.workers| ==> !p.workers[w].Running?)
    && (p.shutdown ==> AllReturned(p))
  }

  /** A pool with a worker is settled, or a worker has a step to take. */
  lemma WorkerMoves(p: Pool) returns (s: Step)
    requires Sound(p) && |p.workers| > 0 && !Settled(p)
    ensures IsWorkerStep(s)
    ensures var q := Take(p, s); Left(q) < Left(p) && q.shutdown == p.shutdown && q.accepted == p.accepted
  {
    if w: nat :| w < |p.workers| && p.workers[w].Running? {
      s := Complete(w);
      WeightsUpdate(p.workers, w, Waiting);
    } else if p.queue != [] {
      assert p.workers[0] != Returned;
      s := Wake(0);
      WeightsUpdate(p.workers, 0, Running(p.queue[0]));
    } else {
      var w: nat :| w < |p.workers| && p.workers[w] != Returned;
      s := Wake(w);
      WeightsUpdate(p.workers, w, Returned);
    }
  }

  lemma NoSteps(steps: seq<Step>)
    ensures steps + [] == steps && WorkerSteps([])
  {
  }

  lemma StepFirst(steps: seq<Step>, s: Step, rest: seq<Step>)
    requires IsWorkerStep(s) && WorkerSteps(rest)
    ensures steps + ([s] + rest) == steps + [s] + rest && WorkerSteps([s] + rest)
  {
  }

  /** From every reachable state of a pool with a worker, the workers can get everything done, and
      return if it is shut down: no task is stuck and no worker waits for ever. */
  lemma {:induction false} WorkersSettle(numThreads: nat, steps: seq<Step>) returns (more: seq<Step>)
    requires numThreads > 0
    ensures WorkerSteps(more)
    ensures Settled(Run(numThreads, steps + more))
    ensures Run(numThreads, steps + more).accepted == Run(numThreads, steps).accepted
    decreases Left(Run(numThreads, steps))
  {
    hide *;
    var p := Run(numThreads, steps);
    EveryRunIsSound(numThreads, steps);
    NoSteps(steps);
    if Settled(p) {
      more := [];
    } else {
      var s := WorkerMoves(p);
      RunSnoc(numThreads, steps, s);
      var rest := WorkersSettle(numThreads, steps + [s]);
      StepFirst(steps, s, rest);
      more := [s] + rest;
    }
  }

  /** And then exactly the accepted tasks were run, each once. */
  lemma AcceptedCanAllRun(numThreads: nat, steps: seq<Step>) returns (more: seq<Step>)
    requires numThreads > 0
    ensures WorkerSteps(more)
    ensures Run(numThreads, steps + more).executed == multiset(Run(numThreads, steps).accepted)
    ensures Shutdown in steps ==> AllReturned(Run(numThreads, steps + more))
  {
    more := WorkersSettle(numThreads, steps);
    var p := Run(numThreads, steps + more);
    EveryRunIsSound(numThreads, steps + more);
    assert p.accepted == p.dequeued;
    forall t ensures multiset(p.accepted)[t] == p.executed[t] {
      InHandOfIdle(p.workers, t);
    }
    ShutdownIff(numThreads, steps + more);
  }
}
