/** The pool of queues and the scheduler of src/runtime/sched/{WorkStealing.hpp,Scheduler.hpp,Scheduler.cpp}:
    tasks are spawned before the workers start, then every worker pops its own queue and steals from
    the others, all operations interleaving step by step. No task is ever run twice. */
module Scheduler {
  import opened Deque

  datatype Pool = Pool(queues: seq<State>, started: bool, nextTaskId: Task)

  /** `Move(q, step)`: a worker takes one atomic step inside an operation on queue q. Only its owner
      pops it, and nobody pushes once the workers run. */
  datatype PoolStep = Spawn | Start | Move(q: nat, step: Step)

  function InitialPool(workers: nat, capacity: nat): Pool {
    Pool(seq(workers, _ => Initial(capacity, workers)), false, 1)
  }

  /** A push that runs to its end before anything else moves. */
  function PushAlone(s: State, task: Task): State
    requires s.owner == OwnerIdle
  {
    var s1 := OwnerMove(Next(s, StartPush(task)));
    var s2 := OwnerMove(s1);
    if s2.owner == OwnerIdle then s2 else OwnerMove(s2)
  }

  predicate PoolEnabled(p: Pool, step: PoolStep) {
    match step
    case Spawn => !p.started && |p.queues| > 0 && p.queues[p.nextTaskId % |p.queues|].owner == OwnerIdle
    case Start => !p.started
    case Move(q, st) => p.started && q < |p.queues| && !st.StartPush? && Enabled(p.queues[q], st)
  }

  function PoolNext(p: Pool, step: PoolStep): Pool
    requires PoolEnabled(p, step)
  {
    match step
    case Spawn =>
      var target := p.nextTaskId % |p.queues|;
      p.(queues := p.queues[target := PushAlone(p.queues[target], p.nextTaskId)], nextTaskId := p.nextTaskId + 1)
    case Start => p.(started := true)
    case Move(q, st) => p.(queues := p.queues[q := Next(p.queues[q], st)])
  }

  predicate PoolRun(p: Pool, steps: seq<PoolStep>, p': Pool)
    decreases |steps|
  {
    if steps == [] then p == p'
    else PoolEnabled(p, steps[0]) && PoolRun(PoolNext(p, steps[0]), steps[1..], p')
  }

  /** How often the workers have run a task: once per hand-out by any queue. */
  function TimesRun(queues: seq<State>, task: Task): nat
    decreases |queues|
  {
    if queues == [] then 0 else queues[0].handed[task] + TimesRun(queues[1..], task)
  }

  /** Task ids are fresh, each goes to the queue named by its residue, and each is accepted at most
      once. Before the workers start every queue is at rest. */
  ghost predicate QueueInv(s: State, q: int, n: int, nextTaskId: int, started: bool)
    requires 0 <= q < n
  {
    && Inv(s)
    && (!started ==> s.owner == OwnerIdle)
    && !s.owner.PushLoadTop? && !s.owner.PushStoreSlot? && !s.owner.PushPublish?
    && forall id :: Accepted(s.log)[id] <= (if 1 <= id < nextTaskId && id % n == q then 1 else 0)
  }

  ghost predicate PoolInv(p: Pool) {
    && 1 <= p.nextTaskId
    && forall q :: 0 <= q < |p.queues| ==> QueueInv(p.queues[q], q, |p.queues|, p.nextTaskId, p.started)
  }

  lemma PushAloneKeeps(s: State, task: Task)
    requires Inv(s) && s.owner == OwnerIdle
    ensures Inv(PushAlone(s, task)) && PushAlone(s, task).owner == OwnerIdle
    ensures PushAlone(s, task).log == s.log || PushAlone(s, task).log == s.log + [PushBack(task)]
  {
    var s1 := OwnerMove(Next(s, StartPush(task)));
    StepKeepsInv(s, StartPush(task));
    StepKeepsInv(Next(s, StartPush(task)), OwnerStep);
    StepKeepsInv(s1, OwnerStep);
    var s2 := OwnerMove(s1);
    if s2.owner != OwnerIdle {
      StepKeepsInv(s2, OwnerStep);
    }
  }

  lemma MoveKeepsAccepted(s: State, step: Step)
    requires Inv(s) && Enabled(s, step) && !step.StartPush?
    requires !s.owner.PushLoadTop? && !s.owner.PushStoreSlot? && !s.owner.PushPublish?
    ensures Accepted(Next(s, step).log) == Accepted(s.log)
    ensures !Next(s, step).owner.PushLoadTop? && !Next(s, step).owner.PushStoreSlot?
      && !Next(s, step).owner.PushPublish?
  {
    hide Inv, Accepted;
    match step
    case StartPop =>
    case OwnerStep =>
      if s.owner.PopLoadTop? && s.top < s.owner.b {
        LogAppend(s.log, PopBack(Or0(Slot(s.buffer, s.owner.b))));
      } else if s.owner.PopCas? && s.top == s.owner.b {
        LogAppend(s.log, PopBack(s.owner.task));
      }
    case ThiefStep(i) =>
      if s.thieves[i].StealCas? && s.top == s.thieves[i].t {
        LogAppend(s.log, PopFront(s.thieves[i].task));
      }
  }

  lemma PoolStepKeepsInv(p: Pool, step: PoolStep)
    requires PoolInv(p) && PoolEnabled(p, step)
    ensures PoolInv(PoolNext(p, step))
  {
    hide Inv, Accepted, PushAlone, Next;
    match step
    case Spawn =>
      var target, id := p.nextTaskId % |p.queues|, p.nextTaskId;
      PushAloneKeeps(p.queues[target], id);
      LogAppend(p.queues[target].log, PushBack(id));
    case Start =>
    case Move(q, st) =>
      StepKeepsInv(p.queues[q], st);
      MoveKeepsAccepted(p.queues[q], st);
  }

  lemma {:induction false} PoolRunKeepsInv(p: Pool, steps: seq<PoolStep>, p': Pool)
    requires PoolInv(p) && PoolRun(p, steps, p')
    ensures PoolInv(p')
    decreases |steps|
  {
    if steps != [] {
      PoolStepKeepsInv(p, steps[0]);
      PoolRunKeepsInv(PoolNext(p, steps[0]), steps[1..], p');
    }
  }

  /** Only the queue with index `owner` hands out the task, and at most once. */
  lemma {:induction false} TimesRunBound(queues: seq<State>, from: int, owner: int, task: Task)
    requires forall q :: 0 <= q < |queues| ==> queues[q].handed[task] <= (if from + q == owner then 1 else 0)
    ensures TimesRun(queues, task) <= (if from <= owner then 1 else 0)
    decreases |queues|
  {
    if queues != [] {
      assert queues[0].handed[task] <= (if from == owner then 1 else 0);
      TimesRunBound(queues[1..], from + 1, owner, task);
    }
  }

  /** No task is run twice, whatever the interleaving; and only spawned tasks are run. */
  lemma RunAtMostOnce(workers: nat, capacity: nat, steps: seq<PoolStep>, p: Pool, task: Task)
    requires PoolRun(InitialPool(workers, capacity), steps, p)
    ensures TimesRun(p.queues, task) <= (if 1 <= task < p.nextTaskId then 1 else 0)
  {
    InitialInv(capacity, workers);
    PoolRunKeepsInv(InitialPool(workers, capacity), steps, p);
    var n := |p.queues|;
    var owner := if n > 0 && 1 <= task < p.nextTaskId then task % n else -1;
    forall q | 0 <= q < n ensures p.queues[q].handed[task] <= (if q == owner then 1 else 0) {
      var s := p.queues[q];
      assert QueueInv(s, q, n, p.nextTaskId, p.started);
      ReplayConserves(s.log);
      assert s.handed[task] <= Accepted(s.log)[task];
    }
    TimesRunBound(p.queues, 0, owner, task);
  }

  function TimesAccepted(queues: seq<State>, task: Task): nat
    decreases |queues|
  {
    if queues == [] then 0 else Accepted(queues[0].log)[task] + TimesAccepted(queues[1..], task)
  }

  predicate Drained(s: State) {
    s.owner == OwnerIdle && Contents(s) == []
  }

  lemma {:induction false} DrainedTotals(queues: seq<State>, task: Task)
    requires forall s :: s in queues ==> Inv(s) && Drained(s)
    ensures TimesRun(queues, task) == TimesAccepted(queues, task)
    decreases |queues|
  {
    if queues != [] {
      assert queues[0] in queues;
      ReplayConserves(queues[0].log);
      DrainedTotals(queues[1..], task);
    }
  }

  /** Once every queue is at rest and empty, every accepted task has been run exactly as often as
      it was accepted: none is lost. */
  lemma NothingLost(workers: nat, capacity: nat, steps: seq<PoolStep>, p: Pool, task: Task)
    requires PoolRun(InitialPool(workers, capacity), steps, p)
    requires forall s :: s in p.queues ==> Drained(s)
    ensures TimesRun(p.queues, task) == TimesAccepted(p.queues, task)
  {
    InitialInv(capacity, workers);
    PoolRunKeepsInv(InitialPool(workers, capacity), steps, p);
    forall s | s in p.queues ensures Inv(s) {
      var q :| 0 <= q < |p.queues| && p.queues[q] == s;
      assert QueueInv(p.queues[q], q, |p.queues|, p.nextTaskId, p.started);
    }
    DrainedTotals(p.queues, task);
  }

  // ----- which spawns are accepted

  /** How many of the ids below `next` go to queue q. */
  function Share(q: nat, n: nat, next: nat): nat
    requires q < n
  {
    if next <= 1 then 0 else Share(q, n, next - 1) + if (next - 1) % n == q then 1 else 0
  }

  lemma DivStep(x: nat, n: nat)
    requires n > 0
    ensures (x + 1) / n == x / n + if (x + 1) % n == 0 then 1 else 0
  {
    var k, r := x / n, x % n;
    assert x == n * k + r;
    if r == n - 1 {
      assert x + 1 == n * (k + 1);
      Quotient(x + 1, k + 1, 0, n);
    } else {
      Quotient(x + 1, k, r + 1, n);
    }
  }

  lemma Quotient(x: nat, k: nat, r: nat, n: nat)
    requires r < n && x == n * k + r
    ensures x / n == k && x % n == r
  {
    var d := x / n - k;
    assert x == n * (x / n) + x % n;
    assert n * d == r - x % n;
    NoMultiple(n, d);
  }

  lemma NoMultiple(n: int, d: int)
    requires -n < n * d < n
    ensures d == 0
  {
  }

  lemma {:induction false} ShareIs(q: nat, n: nat, next: nat)
    requires q < n && next >= 1
    ensures Share(q, n, next) == (if q == 0 then next - 1 else next - 1 + n - q) / n
    decreases next
  {
    var shift := if q == 0 then 0 else n - q;
    if next == 1 {
      Quotient(shift, 0, shift, n);
    } else {
      ShareIs(q, n, next - 1);
      DivStep(next - 2 + shift, n);
      SameResidue(next - 1, shift, q, n);
    }
  }

  lemma SameResidue(id: nat, shift: nat, q: nat, n: nat)
    requires q < n && shift == if q == 0 then 0 else n - q
    ensures (id + shift) % n == 0 <==> id % n == q
  {
    var k, r := id / n, id % n;
    assert id == n * k + r;
    if r < q {
      Quotient(id + shift, k, r + shift, n);
    } else if q > 0 {
      assert id + shift == n * (k + 1) + (r - q);
      Quotient(id + shift, k + 1, r - q, n);
    }
  }

  /** A task's queue had this many before it. */
  lemma ShareBefore(id: nat, n: nat)
    requires id >= 1 && n > 0
    ensures Share(id % n, n, id) == (id - 1) / n
  {
    var q := id % n;
    ShareIs(q, n, id);
    if q > 0 {
      var k := id / n;
      assert id == n * k + q;
      Quotient(id - 1, k, q - 1, n);
      assert id - 1 + n - q == n * (k + 1) + -1;
      assert id - 1 + n - q == n * k + (n - 1);
      Quotient(id - 1 + n - q, k, n - 1, n);
    }
  }

  predicate Fits(id: int, q: int, n: int, nextTaskId: int, capacity: nat)
    requires n > 0
  {
    1 <= id < nextTaskId && id % n == q && (id - 1) / n < capacity
  }

  /** Before the start a queue holds its share of the ids as far as they fit, and exactly those have been accepted. */
  ghost predicate FillInv(s: State, q: nat, n: nat, nextTaskId: nat, started: bool, capacity: nat)
    requires q < n
  {
    && (!started ==> |s.buffer| == capacity && s.top == 0
                     && s.bottom == if Share(q, n, nextTaskId) < capacity then Share(q, n, nextTaskId) else capacity)
    && forall id :: Accepted(s.log)[id] == if Fits(id, q, n, nextTaskId, capacity) then 1 else 0
  }

  ghost predicate PoolFill(p: Pool, capacity: nat) {
    PoolInv(p) && forall q: nat ::
      q < |p.queues| ==> FillInv(p.queues[q], q, |p.queues|, p.nextTaskId, p.started, capacity)
  }

  lemma PushAloneIs(s: State, task: Task)
    requires s.owner == OwnerIdle
    ensures
      var t := PushAlone(s, task);
      if s.bottom - s.top >= |s.buffer| then t == s
      else |t.buffer| == |s.buffer| && t.top == s.top && t.bottom == s.bottom + 1 && t.log == s.log + [PushBack(task)]
  {
  }

  lemma SpawnFills(s: State, q: nat, n: nat, id: nat, capacity: nat)
    requires q < n && id >= 1 && s.owner == OwnerIdle && FillInv(s, q, n, id, false, capacity)
    ensures FillInv(if id % n == q then PushAlone(s, id) else s, q, n, id + 1, false, capacity)
  {
    hide Accepted, PushAlone;
    if id % n == q {
      ShareBefore(id, n);
      PushAloneIs(s, id);
      LogAppend(s.log, PushBack(id));
    }
  }

  lemma PoolStepFills(p: Pool, step: PoolStep, capacity: nat)
    requires PoolFill(p, capacity) && PoolEnabled(p, step)
    ensures PoolFill(PoolNext(p, step), capacity)
  {
    hide Inv, Accepted, PushAlone, Next, FillInv;
    PoolStepKeepsInv(p, step);
    var p' := PoolNext(p, step);
    forall q: nat | q < |p'.queues| ensures FillInv(p'.queues[q], q, |p'.queues|, p'.nextTaskId, p'.started, capacity) {
      assert FillInv(p.queues[q], q, |p.queues|, p.nextTaskId, p.started, capacity);
      assert QueueInv(p.queues[q], q, |p.queues|, p.nextTaskId, p.started);
      if step.Spawn? {
        SpawnFills(p.queues[q], q, |p.queues|, p.nextTaskId, capacity);
      } else {
        if step.Move? && step.q == q { MoveKeepsAccepted(p.queues[q], step.step); }
        StartedFills(p.queues[q], p'.queues[q], q, |p.queues|, p.nextTaskId, p.started, capacity);
      }
    }
  }

  lemma StartedFills(s: State, t: State, q: nat, n: nat, nextTaskId: nat, started: bool, capacity: nat)
    requires q < n && FillInv(s, q, n, nextTaskId, started, capacity) && Accepted(t.log) == Accepted(s.log)
    ensures FillInv(t, q, n, nextTaskId, true, capacity)
  {
    hide Accepted;
  }

  lemma {:induction false} PoolRunFills(p: Pool, steps: seq<PoolStep>, p': Pool, capacity: nat)
    requires PoolFill(p, capacity) && PoolRun(p, steps, p')
    ensures PoolFill(p', capacity) && |p'.queues| == |p.queues|
    decreases |steps|
  {
    if steps != [] {
      PoolStepFills(p, steps[0], capacity);
      PoolRunFills(PoolNext(p, steps[0]), steps[1..], p', capacity);
    }
  }

  lemma {:induction false} AcceptedOnce(queues: seq<State>, from: int, owner: int, task: Task)
    requires forall q :: 0 <= q < |queues| ==> Accepted(queues[q].log)[task] == if from + q == owner then 1 else 0
    ensures TimesAccepted(queues, task) == if from <= owner < from + |queues| then 1 else 0
    decreases |queues|
  {
    if queues != [] {
      assert Accepted(queues[0].log)[task] == if from == owner then 1 else 0;
      AcceptedOnce(queues[1..], from + 1, owner, task);
    }
  }

  /** A spawned task is accepted if and only if its queue's share of the earlier ids is below the
      capacity; else `spawn` returns its id all the same, but nobody has it. */
  lemma SpawnsAccepted(workers: nat, capacity: nat, steps: seq<PoolStep>, p: Pool, task: Task)
    requires PoolRun(InitialPool(workers, capacity), steps, p)
    ensures TimesAccepted(p.queues, task) == if workers > 0 && 1 <= task < p.nextTaskId
      && (task - 1) / workers < capacity then 1 else 0
  {
    var p0 := InitialPool(workers, capacity);
    InitialInv(capacity, workers);
    hide Inv, FillInv;
    forall q: nat | q < workers ensures FillInv(p0.queues[q], q, workers, 1, false, capacity) {
      InitialFills(q, workers, capacity);
    }
    PoolRunFills(p0, steps, p, capacity);
    var owner := if workers > 0 && 1 <= task < p.nextTaskId && (task - 1) / workers < capacity then task % workers
    else -1;
    forall q | 0 <= q < |p.queues| ensures Accepted(p.queues[q].log)[task] == if 0 + q == owner then 1 else 0 {
      FilledAt(p.queues[q], q, workers, p.nextTaskId, p.started, capacity, task);
    }
    AcceptedOnce(p.queues, 0, owner, task);
  }

  lemma InitialFills(q: nat, n: nat, capacity: nat)
    requires q < n
    ensures FillInv(Initial(capacity, n), q, n, 1, false, capacity)
  {
  }

  lemma FilledAt(s: State, q: nat, n: nat, nextTaskId: nat, started: bool, capacity: nat, task: Task)
    requires q < n && FillInv(s, q, n, nextTaskId, started, capacity)
    ensures Accepted(s.log)[task] == if Fits(task, q, n, nextTaskId, capacity) then 1 else 0
  {
  }

  /** Once every queue is at rest and empty, the tasks run are exactly those that found room when they were
      spawned, each once. */
  lemma RunExactly(workers: nat, capacity: nat, steps: seq<PoolStep>, p: Pool, task: Task)
    requires PoolRun(InitialPool(workers, capacity), steps, p)
    requires forall s :: s in p.queues ==> Drained(s)
    ensures TimesRun(p.queues, task) == if workers > 0 && 1 <= task < p.nextTaskId
      && (task - 1) / workers < capacity then 1 else 0
  {
    hide Drained;
    NothingLost(workers, capacity, steps, p, task);
    SpawnsAccepted(workers, capacity, steps, p, task);
  }
}
