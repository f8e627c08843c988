/** The bounded work-stealing deque of src/runtime/sched/LockFreeQueue.hpp as a state machine:
    every load, store, slot access and compare-exchange is one sequentially consistent step, taken
    by the one owner or by any of an arbitrary number of thieves, in any order.

    The main results are linearizability (the log of linearization points replays on a sequential
    deque to exactly the queue's contents, in every reachable state) and conservation (tasks
    accepted = tasks handed out + task in flight + tasks still queued). */
module Deque {
  import opened Options

  type Task = int  // the address of a task; a null pointer is `None`

  /** Program counter and registers of the owner inside push or pop. */
  datatype OwnerPc =
    | OwnerIdle
    | PushLoadTop(task: Task, b: int)          // bottom loaded
    | PushStoreSlot(task: Task, b: int, t: int) // top loaded; size check and slot store next
    | PushPublish(task: Task, b: int)          // slot written; bottom store next
    | PopStoreBottom(b: int)                   // b == bottom - 1 computed
    | PopLoadTop(b: int)                       // bottom lowered
    | PopReadSlot(b: int, t: int)              // top loaded; comparison and slot read next
    | PopCas(b: int, task: Task)               // last element: compare-exchange on top next
    | PopRestore(b: int, result: Option<Task>) // bottom store b + 1 and return next

  /** Program counter and registers of one thief inside steal. */
  datatype ThiefPc =
    | ThiefIdle
    | StealLoadBottom(t: int)
    | StealReadSlot(t: int, b: int)
    | StealCas(t: int, task: Task)

  /** Linearization events, seen from the sequential deque. */
  datatype Event = PushBack(task: Task) | PopBack(task: Task) | PopFront(task: Task)

  datatype State = State(
    buffer: seq<Option<Task>>,  // its size is the capacity
    top: int,
    bottom: int,
    owner: OwnerPc,
    thieves: seq<ThiefPc>,
    log: seq<Event>,            // history: linearization points so far
    handed: multiset<Task>)     // history: tasks returned by pop or steal

  /** A scheduling choice: who moves, and for an idle owner which operation it starts. */
  datatype Step = StartPush(task: Task) | StartPop | OwnerStep | ThiefStep(i: nat)

  function Initial(capacity: nat, thieves: nat): State {
    State(seq(capacity, _ => None), 0, 0, OwnerIdle, seq(thieves, _ => ThiefIdle), [], multiset{})
  }

  predicate Enabled(s: State, step: Step) {
    match step
    case StartPush(_) => s.owner == OwnerIdle
    case StartPop => s.owner == OwnerIdle
    case OwnerStep => s.owner != OwnerIdle
    case ThiefStep(i) => i < |s.thieves|
  }

  // ----- the code, one atomic access at a time

  /** The slot of index i in the circular buffer (only a buffer of size 0 has none). */
  function Slot(buffer: seq<Option<Task>>, i: int): Option<Task> {
    if |buffer| == 0 then None else buffer[i % |buffer|]
  }

  function Store(buffer: seq<Option<Task>>, i: int, task: Task): (r: seq<Option<Task>>)
    ensures |r| == |buffer|
  {
    if |buffer| == 0 then buffer else buffer[i % |buffer| := Some(task)]
  }

  function Or0(o: Option<Task>): Task {
    if o.Some? then o.value else 0
  }

  function OwnerMove(s: State): State
    requires s.owner != OwnerIdle
  {
    match s.owner
    case PushLoadTop(task, b) => s.(owner := PushStoreSlot(task, b, s.top))
    case PushStoreSlot(task, b, t) =>
      if b - t >= |s.buffer| then s.(owner := OwnerIdle)  // full: the task is dropped
      else s.(buffer := Store(s.buffer, b, task), owner := PushPublish(task, b))
    case PushPublish(task, b) =>
      s.(bottom := b + 1, owner := OwnerIdle, log := s.log + [PushBack(task)])
    case PopStoreBottom(b) => s.(bottom := b, owner := PopLoadTop(b))
    case PopLoadTop(b) =>
      // Reading a top below b is the linearization point of a pop that needs no compare-exchange.
      s.(owner := PopReadSlot(b, s.top),
         log := if s.top < b then s.log + [PopBack(Or0(Slot(s.buffer, b)))] else s.log)
    case PopReadSlot(b, t) =>
      if t < b then s.(owner := OwnerIdle, handed := s.handed + multiset{Or0(Slot(s.buffer, b))})
      else if t == b then s.(owner := PopCas(b, Or0(Slot(s.buffer, b))))
      else s.(owner := PopRestore(b, None))
    case PopCas(b, task) =>
      if s.top == b
      then s.(top := b + 1, owner := PopRestore(b, Some(task)), log := s.log + [PopBack(task)])
      else s.(owner := PopRestore(b, None))
    case PopRestore(b, result) =>
      s.(bottom := b + 1, owner := OwnerIdle,
         handed := if result.Some? then s.handed + multiset{result.value} else s.handed)
  }

  function ThiefMove(s: State, i: nat): State
    requires i < |s.thieves|
  {
    match s.thieves[i]
    case ThiefIdle => s.(thieves := s.thieves[i := StealLoadBottom(s.top)])
    case StealLoadBottom(t) => s.(thieves := s.thieves[i := StealReadSlot(t, s.bottom)])
    case StealReadSlot(t, b) =>
      if t < b then s.(thieves := s.thieves[i := StealCas(t, Or0(Slot(s.buffer, t)))])
      else s.(thieves := s.thieves[i := ThiefIdle])
    case StealCas(t, task) =>
      if s.top == t
      then s.(top := t + 1, thieves := s.thieves[i := ThiefIdle], log := s.log + [PopFront(task)],
              handed := s.handed + multiset{task})
      else s.(thieves := s.thieves[i := ThiefIdle])
  }

  function Next(s: State, step: Step): State
    requires Enabled(s, step)
  {
    match step
    case StartPush(task) => s.(owner := PushLoadTop(task, s.bottom))
    case StartPop => s.(owner := PopStoreBottom(s.bottom - 1))
    case OwnerStep => OwnerMove(s)
    case ThiefStep(i) => ThiefMove(s, i)
  }

  predicate Run(s: State, steps: seq<Step>, s': State)
    decreases |steps|
  {
    if steps == [] then s == s'
    else Enabled(s, steps[0]) && Run(Next(s, steps[0]), steps[1..], s')
  }

  // ----- the abstract deque

  /** One past the last index that is still in the abstract deque: `bottom`, or one more while a
      pop has lowered `bottom` without having decided yet. */
  function Limit(owner: OwnerPc, top: int, bottom: int): int {
    match owner
    case PopLoadTop(b) => if top <= b then b + 1 else top
    case PopReadSlot(b, t) => if t < b then b else if top <= b then b + 1 else top
    case PopCas(b, _) => if top <= b then b + 1 else top
    case PopRestore(b, _) => top
    case _ => bottom
  }

  /** The tasks stored at the indices lo, ..., hi - 1. */
  function Items(buffer: seq<Option<Task>>, lo: int, hi: int): (r: seq<Task>)
    decreases hi - lo
  {
    if lo >= hi then [] else Items(buffer, lo, hi - 1) + [Or0(Slot(buffer, hi - 1))]
  }

  function Contents(s: State): seq<Task> {
    Items(s.buffer, s.top, Limit(s.owner, s.top, s.bottom))
  }

  /** The task removed by the owner from the abstract deque and not yet returned. */
  function InFlight(owner: OwnerPc, buffer: seq<Option<Task>>): multiset<Task> {
    match owner
    case PopReadSlot(b, t) => if t < b then multiset{Or0(Slot(buffer, b))} else multiset{}
    case PopRestore(_, Some(task)) => multiset{task}
    case _ => multiset{}
  }

  /** One operation of the sequential deque; None if it cannot return that task. */
  function Apply(d: seq<Task>, e: Event): Option<seq<Task>> {
    match e
    case PushBack(x) => Some(d + [x])
    case PopBack(x) => if d != [] && d[|d| - 1] == x then Some(d[..|d| - 1]) else None
    case PopFront(x) => if d != [] && d[0] == x then Some(d[1..]) else None
  }

  function Replay(log: seq<Event>): Option<seq<Task>>
    decreases |log|
  {
    if log == [] then Some([])
    else
      var before := Replay(log[..|log| - 1]);
      if before == None then None else Apply(before.value, log[|log| - 1])
  }

  /** Tasks entering and leaving the sequential deque along a log. */
  function Accepted(log: seq<Event>): multiset<Task>
    decreases |log|
  {
    if log == [] then multiset{}
    else
      var e := log[|log| - 1];
      Accepted(log[..|log| - 1]) + (if e.PushBack? then multiset{e.task} else multiset{})
  }

  function Removed(log: seq<Event>): multiset<Task>
    decreases |log|
  {
    if log == [] then multiset{}
    else
      var e := log[|log| - 1];
      Removed(log[..|log| - 1]) + (if e.PushBack? then multiset{} else multiset{e.task})
  }

  // ----- the invariant

  /** A slot that still belongs to the queue holds a task, and the queue fits its buffer. */
  predicate OwnerInv(s: State) {
    && 0 <= s.top
    && (match s.owner
        case OwnerIdle => s.top <= s.bottom
        case PushLoadTop(_, b) => b == s.bottom && s.top <= b
        case PushStoreSlot(_, b, t) => b == s.bottom && t <= s.top <= b
        case PushPublish(task, b) =>
          b == s.bottom && s.top <= b && b - s.top < |s.buffer| && Slot(s.buffer, b) == Some(task)
        case PopStoreBottom(b) => b == s.bottom - 1 && s.top <= s.bottom
        case PopLoadTop(b) => b == s.bottom && s.top <= b + 1
        case PopReadSlot(b, t) =>
          && b == s.bottom && t <= s.top
          && (if t < b then s.top <= b && b + 1 - t <= |s.buffer| && Slot(s.buffer, b).Some?
              else s.top <= b + 1)
        case PopCas(b, task) => b == s.bottom && b <= s.top <= b + 1 && (s.top == b ==> Slot(s.buffer, b) == Some(task))
        case PopRestore(b, result) => b == s.bottom && s.top == b + 1)
  }

  predicate Filled(buffer: seq<Option<Task>>, top: int, limit: int) {
    && limit - top <= |buffer|
    && forall i :: top <= i < limit ==> Slot(buffer, i).Some?
  }

  /** What a thief relies on: if its compare-exchange on index t can still succeed, then t is
      still in the abstract deque and the task it holds is the one stored there. */
  predicate ThiefInv(buffer: seq<Option<Task>>, top: int, limit: int, pc: ThiefPc) {
    match pc
    case ThiefIdle => true
    case StealLoadBottom(t) => t <= top
    case StealReadSlot(t, b) => t <= top && (t == top && t < b ==> t < limit)
    case StealCas(t, task) => t <= top && (t == top ==> t < limit && Slot(buffer, t) == Some(task))
  }

  predicate Inv(s: State) {
    var limit := Limit(s.owner, s.top, s.bottom);
    && OwnerInv(s)
    && Filled(s.buffer, s.top, limit)
    && (forall i :: 0 <= i < |s.thieves| ==> ThiefInv(s.buffer, s.top, limit, s.thieves[i]))
    && History(s.log, s.handed, InFlight(s.owner, s.buffer), Contents(s))
  }

  /** The log explains the contents, and what it removed is handed out or in flight. */
  predicate History(log: seq<Event>, handed: multiset<Task>, inFlight: multiset<Task>, contents: seq<Task>) {
    Replay(log) == Some(contents) && Removed(log) == handed + inFlight
  }

  // ----- every step keeps the invariant

  lemma DistinctSlots(n: int, i: int, j: int)
    requires 0 < n && i < j < i + n
    ensures i % n != j % n
  {
    var q := j / n - i / n;
    assert j - i == n * q + j % n - i % n;
    if q >= 1 { assert n * q >= n; } else { assert n * q <= 0; }
  }

  lemma LogAppend(log: seq<Event>, e: Event)
    ensures Removed(log + [e]) == Removed(log) + (if e.PushBack? then multiset{} else multiset{e.task})
    ensures Accepted(log + [e]) == Accepted(log) + (if e.PushBack? then multiset{e.task} else multiset{})
    ensures Replay(log + [e]) == if Replay(log) == None then None else Apply(Replay(log).value, e)
  {
    assert (log + [e])[..|log|] == log;
  }

  lemma HistoryPush(log: seq<Event>, handed: multiset<Task>, inFlight: multiset<Task>, d: seq<Task>, x: Task)
    requires History(log, handed, inFlight, d)
    ensures History(log + [PushBack(x)], handed, inFlight, d + [x])
  {
    LogAppend(log, PushBack(x));
  }

  lemma HistoryPop(log: seq<Event>, handed: multiset<Task>, d: seq<Task>, x: Task)
    requires History(log, handed, multiset{}, d + [x])
    ensures History(log + [PopBack(x)], handed, multiset{x}, d)
  {
    LogAppend(log, PopBack(x));
    assert (d + [x])[..|d|] == d;
  }

  lemma HistorySteal(log: seq<Event>, handed: multiset<Task>, inFlight: multiset<Task>, d: seq<Task>, x: Task)
    requires History(log, handed, inFlight, [x] + d)
    ensures History(log + [PopFront(x)], handed + multiset{x}, inFlight, d)
  {
    LogAppend(log, PopFront(x));
    assert ([x] + d)[1..] == d;
  }

  lemma HistoryReturn(log: seq<Event>, handed: multiset<Task>, d: seq<Task>, x: Task)
    requires History(log, handed, multiset{x}, d)
    ensures History(log, handed + multiset{x}, multiset{}, d)
  {
  }

  lemma {:induction false} ItemsFront(buffer: seq<Option<Task>>, lo: int, hi: int)
    requires lo < hi
    ensures Items(buffer, lo, hi) == [Or0(Slot(buffer, lo))] + Items(buffer, lo + 1, hi)
    decreases hi - lo
  {
    if lo + 1 < hi { ItemsFront(buffer, lo, hi - 1); }
  }

  lemma {:induction false} ItemsStore(buffer: seq<Option<Task>>, lo: int, hi: int, b: int, task: Task)
    requires lo <= hi <= b < lo + |buffer|
    ensures Items(Store(buffer, b, task), lo, hi) == Items(buffer, lo, hi)
    ensures forall i :: lo <= i < hi ==> Slot(Store(buffer, b, task), i) == Slot(buffer, i)
    ensures Slot(Store(buffer, b, task), b) == Some(task)
    decreases hi - lo
  {
    if lo < hi {
      ItemsStore(buffer, lo, hi - 1, b, task);
      DistinctSlots(|buffer|, hi - 1, b);
    }
  }

  lemma InitialInv(capacity: nat, thieves: nat)
    ensures Inv(Initial(capacity, thieves))
  {
  }

  /** Storing into the free slot leaves the queued tasks and every thief's claim alone. */
  lemma StoreKeeps(s: State)
    requires Inv(s) && s.owner.PushStoreSlot? && s.owner.b - s.owner.t < |s.buffer|
    ensures Inv(OwnerMove(s))
  {
    ItemsStore(s.buffer, s.top, s.owner.b, s.owner.b, s.owner.task);
  }

  lemma ItemsBack(buffer: seq<Option<Task>>, lo: int, hi: int)
    requires lo <= hi
    ensures Items(buffer, lo, hi + 1) == Items(buffer, lo, hi) + [Or0(Slot(buffer, hi))]
  {
  }

  lemma PublishKeeps(s: State)
    requires Inv(s) && s.owner.PushPublish?
    ensures Inv(OwnerMove(s))
  {
    hide Items, Slot, History;
    HistoryPush(s.log, s.handed, multiset{}, Contents(s), s.owner.task);
    ItemsBack(s.buffer, s.top, s.owner.b);
  }

  lemma PopDecides(s: State)
    requires Inv(s) && s.owner.PopLoadTop? && s.top < s.owner.b
    ensures Inv(OwnerMove(s))
  {
    hide Items, Slot, History;
    ItemsBack(s.buffer, s.top, s.owner.b);
    HistoryPop(s.log, s.handed, Items(s.buffer, s.top, s.owner.b), Or0(Slot(s.buffer, s.owner.b)));
  }

  lemma PopReturns(s: State)
    requires Inv(s) && s.owner.PopReadSlot? && s.owner.t < s.owner.b
    ensures Inv(OwnerMove(s))
  {
    hide Items, Slot, History;
    HistoryReturn(s.log, s.handed, Contents(s), Or0(Slot(s.buffer, s.owner.b)));
  }

  lemma PopCasWins(s: State)
    requires Inv(s) && s.owner.PopCas? && s.top == s.owner.b
    ensures Inv(OwnerMove(s))
  {
    var b := s.owner.b;
    ItemsLength(s.buffer, b + 1, b + 1);
    ItemsLength(s.buffer, b, b);
    ItemsBack(s.buffer, b, b);
    hide Items, Slot, History;
    HistoryPop(s.log, s.handed, [], s.owner.task);
  }

  lemma PopRestores(s: State)
    requires Inv(s) && s.owner.PopRestore?
    ensures Inv(OwnerMove(s))
  {
    hide Items, Slot, History;
    if s.owner.result.Some? {
      HistoryReturn(s.log, s.handed, Contents(s), s.owner.result.value);
    }
  }

  lemma OwnerKeeps(s: State)
    requires Inv(s) && s.owner != OwnerIdle
    ensures Inv(OwnerMove(s))
  {
    hide Items, Slot, History;
    match s.owner
    case PushStoreSlot(task, b, t) => if b - t < |s.buffer| { StoreKeeps(s); }
    case PushPublish(task, b) => PublishKeeps(s);
    case PopLoadTop(b) => if s.top < b { PopDecides(s); }
    case PopReadSlot(b, t) => if t < b { PopReturns(s); }
    case PopCas(b, task) => if s.top == b { PopCasWins(s); }
    case PopRestore(b, result) => PopRestores(s);
    case _ =>
  }

  lemma SetThief(s: State, i: nat, pc: ThiefPc)
    requires Inv(s) && i < |s.thieves| && ThiefInv(s.buffer, s.top, Limit(s.owner, s.top, s.bottom), pc)
    ensures Inv(s.(thieves := s.thieves[i := pc]))
  {
  }

  lemma LimitAfterSteal(s: State)
    requires OwnerInv(s) && s.top < Limit(s.owner, s.top, s.bottom)
    ensures Limit(s.owner, s.top + 1, s.bottom) == Limit(s.owner, s.top, s.bottom)
    ensures OwnerInv(s.(top := s.top + 1))
  {
  }

  lemma StealKeeps(s: State, i: nat)
    requires Inv(s) && i < |s.thieves| && s.thieves[i].StealCas? && s.thieves[i].t == s.top
    ensures Inv(ThiefMove(s, i))
  {
    hide Items, Slot, History;
    LimitAfterSteal(s);
    var d := Items(s.buffer, s.top + 1, Limit(s.owner, s.top, s.bottom));
    ItemsFront(s.buffer, s.top, Limit(s.owner, s.top, s.bottom));
    HistorySteal(s.log, s.handed, InFlight(s.owner, s.buffer), d, s.thieves[i].task);
  }

  lemma ThiefKeeps(s: State, i: nat)
    requires Inv(s) && i < |s.thieves|
    ensures Inv(ThiefMove(s, i))
  {
    match s.thieves[i]
    case ThiefIdle => SetThief(s, i, StealLoadBottom(s.top));
    case StealLoadBottom(t) => SetThief(s, i, StealReadSlot(t, s.bottom));
    case StealReadSlot(t, b) => SetThief(s, i, if t < b then StealCas(t, Or0(Slot(s.buffer, t))) else ThiefIdle);
    case StealCas(t, task) => if t == s.top { StealKeeps(s, i); } else { SetThief(s, i, ThiefIdle); }
  }

  lemma StepKeepsInv(s: State, step: Step)
    requires Inv(s) && Enabled(s, step)
    ensures Inv(Next(s, step))
  {
    match step
    case StartPush(task) =>
    case StartPop =>
    case OwnerStep => OwnerKeeps(s);
    case ThiefStep(i) => ThiefKeeps(s, i);
  }

  lemma {:induction false} RunKeepsInv(s: State, steps: seq<Step>, s': State)
    requires Inv(s) && Run(s, steps, s')
    ensures Inv(s')
    decreases |steps|
  {
    if steps != [] {
      StepKeepsInv(s, steps[0]);
      RunKeepsInv(Next(s, steps[0]), steps[1..], s');
    }
  }

  // ----- main results, for every reachable state

  ghost predicate Reachable(s: State) {
    exists capacity: nat, thieves: nat, steps :: Run(Initial(capacity, thieves), steps, s)
  }

  lemma ReachableInv(s: State)
    requires Reachable(s)
    ensures Inv(s)
  {
    var capacity: nat, thieves: nat, steps :| Run(Initial(capacity, thieves), steps, s);
    InitialInv(capacity, thieves);
    RunKeepsInv(Initial(capacity, thieves), steps, s);
  }

  /** Linearizability: the log replays on a sequential deque (pops and steals each return the
      element at their end) and yields exactly the tasks stored between top and the limit. */
  lemma Linearizable(s: State)
    requires Reachable(s)
    ensures Replay(s.log) == Some(Contents(s))
  {
    ReachableInv(s);
  }

  lemma ApplyConserves(d: seq<Task>, e: Event)
    requires Apply(d, e).Some?
    ensures multiset(d) + (if e.PushBack? then multiset{e.task} else multiset{}) ==
            multiset(Apply(d, e).value) + (if e.PushBack? then multiset{} else multiset{e.task})
  {
    match e
    case PushBack(x) =>
    case PopBack(x) => assert d == d[..|d| - 1] + [x];
    case PopFront(x) => assert d == [x] + d[1..];
  }

  lemma BagShift(a: multiset<Task>, r: multiset<Task>, m: multiset<Task>, m': multiset<Task>,
                 pushed: multiset<Task>, popped: multiset<Task>)
    requires a == r + m && m + pushed == m' + popped
    ensures a + pushed == r + popped + m'
  {
    forall x ensures (a + pushed)[x] == (r + popped + m')[x] {
      assert (m + pushed)[x] == (m' + popped)[x];
    }
  }

  lemma {:induction false} ReplayConserves(log: seq<Event>)
    requires Replay(log).Some?
    ensures Accepted(log) == Removed(log) + multiset(Replay(log).value)
    decreases |log|
  {
    if log != [] {
      var before, e := log[..|log| - 1], log[|log| - 1];
      assert log == before + [e];
      LogAppend(before, e);
      ReplayConserves(before);
      ApplyConserves(Replay(before).value, e);
      hide Accepted, Removed, Apply, Replay;
      BagShift(Accepted(before), Removed(before), multiset(Replay(before).value), multiset(Replay(log).value),
               if e.PushBack? then multiset{e.task} else multiset{}, if e.PushBack? then multiset{}
               else multiset{e.task});
    }
  }

  /** Conservation: what was accepted is what was handed out, plus the task the owner is about to
      return, plus what is still queued; so no accepted task is handed out more often than it was
      pushed, and none is lost. */
  lemma TasksConserved(s: State)
    requires Reachable(s)
    ensures Accepted(s.log) == s.handed + InFlight(s.owner, s.buffer) + multiset(Contents(s))
    ensures s.handed <= Accepted(s.log)
  {
    ReachableInv(s);
    ReplayConserves(s.log);
  }

  /** A push is refused only by a queue that was full when `top` was read, a pop returns null only
      from an empty queue, and a full queue never overwrites a task that is still queued. */
  lemma RefusalsAreJustified(s: State)
    requires Reachable(s)
    ensures s.owner.PushLoadTop? && s.owner.b - s.top >= |s.buffer| ==> |Contents(s)| == |s.buffer|
    ensures s.owner.PopReadSlot? && s.owner.t > s.owner.b ==> Contents(s) == []
    ensures s.owner.PopCas? && s.owner.b != s.top ==> Contents(s) == []
    ensures |Contents(s)| <= |s.buffer|
  {
    ReachableInv(s);
    ItemsLength(s.buffer, s.top, Limit(s.owner, s.top, s.bottom));
  }

  lemma {:induction false} ItemsLength(buffer: seq<Option<Task>>, lo: int, hi: int)
    ensures |Items(buffer, lo, hi)| == if lo >= hi then 0 else hi - lo
    decreases hi - lo
  {
    if lo < hi { ItemsLength(buffer, lo, hi - 1); }
  }
}
