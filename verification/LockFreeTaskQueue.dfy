/** The queue object of src/runtime/sched/LockFreeQueue.hpp with its fields and its three operations
    as written. Each operation, run without interruption, is proved to be exactly the run of the
    step machine of module Deque in which only that operation moves; so the machine's steps are the
    code's steps, and what each call does to the queue follows. */
module LockFreeTaskQueues {
  import opened Options
  import opened Deque

  /** The owner's next move, if it is inside an operation. */
  function Move(s: State): State {
    if s.owner == OwnerIdle then s else OwnerMove(s)
  }

  /** Thief 0's next move, if it is inside an operation. */
  function Thieve(s: State): (r: State)
    requires |s.thieves| > 0
    ensures |r.thieves| == |s.thieves|
  {
    if s.thieves[0] == ThiefIdle then s else ThiefMove(s, 0)
  }

  function SoloPush(s: State, task: Task): State
    requires s.owner == OwnerIdle
  {
    Move(Move(Move(Next(s, StartPush(task)))))
  }

  function SoloPop(s: State): State
    requires s.owner == OwnerIdle
  {
    Move(Move(Move(Move(Move(Next(s, StartPop))))))
  }

  function SoloSteal(s: State): State
    requires |s.thieves| > 0
  {
    Thieve(Thieve(Thieve(ThiefMove(s, 0))))
  }

  /** The uninterrupted pop in one piece. */
  lemma SoloPopResult(s: State)
    requires s.owner == OwnerIdle && s.top <= s.bottom
    ensures SameMemory(SoloPop(s), if s.top == s.bottom - 1 then s.(top := s.top + 1)
                                   else if s.top < s.bottom then s.(bottom := s.bottom - 1) else s)
    ensures SoloPop(s).handed ==
            if s.top < s.bottom then s.handed + multiset{Or0(Slot(s.buffer, s.bottom - 1))} else s.handed
  {
    var s3 := Move(Move(Next(s, StartPop)));
    assert s3.owner == PopReadSlot(s.bottom - 1, s.top);
  }

  ghost predicate SameMemory(s: State, s': State) {
    s.buffer == s'.buffer && s.top == s'.top && s.bottom == s'.bottom && s.owner == s'.owner && s.thieves == s'.thieves
  }

  function Returned(result: Option<Task>): multiset<Task> {
    if result.Some? then multiset{result.value} else multiset{}
  }

  class LockFreeTaskQueue {
    const buffer: array<Option<Task>>
    var top: int
    var bottom: int

    ghost function Snapshot(): State
      reads this, buffer
    {
      State(buffer[..], top, bottom, OwnerIdle, [ThiefIdle], [], multiset{})
    }

    ghost function Tasks(): seq<Task>
      reads this, buffer
    {
      Items(buffer[..], top, bottom)
    }

    ghost predicate Valid()
      reads this, buffer
    {
      0 <= top <= bottom && Filled(buffer[..], top, bottom)
    }

    constructor (capacity: nat := 1024)
      ensures Valid() && Tasks() == [] && fresh(buffer) && buffer.Length == capacity
    {
      buffer := new Option<Task>[capacity](_ => None);
      top, bottom := 0, 0;
    }

    method Push(task: Task)
      requires Valid()
      modifies this, buffer
      ensures Valid()
      ensures Tasks() == if |old(Tasks())| == buffer.Length then old(Tasks()) else old(Tasks()) + [task]
      ensures SameMemory(Snapshot(), SoloPush(old(Snapshot()), task))
    {
      var b := bottom;
      var t := top;
      ItemsLength(buffer[..], top, bottom);
      if b - t >= buffer.Length {
        return;
      }
      ItemsStore(buffer[..], top, b, b, task);
      buffer[b % buffer.Length] := Some(task);
      assert buffer[..] == Store(old(buffer[..]), b, task);
      bottom := b + 1;
    }

    method Pop() returns (task: Option<Task>)
      requires Valid()
      modifies this
      ensures Valid()
      ensures task == None <==> old(Tasks()) == []
      ensures task.Some? ==> Tasks() + [task.value] == old(Tasks())
      ensures task == None ==> Tasks() == []
      ensures SameMemory(Snapshot(), SoloPop(old(Snapshot())))
      ensures SoloPop(old(Snapshot())).handed == Returned(task)
    {
      SoloPopResult(Snapshot());
      var b := bottom - 1;
      bottom := b;
      var t := top;
      task := None;
      if t <= b {
        assert Slot(buffer[..], b).Some?;
        task := buffer[b % buffer.Length];
        assert old(Tasks()) == Items(buffer[..], t, b) + [task.value];
        if t == b {
          if top == t {  // the compare-exchange
            top := t + 1;
          } else {
            task := None;
          }
          bottom := b + 1;
        }
      } else {
        bottom := b + 1;
      }
    }

    method Steal() returns (task: Option<Task>)
      requires Valid()
      modifies this
      ensures Valid()
      ensures task == None <==> old(Tasks()) == []
      ensures task.Some? ==> [task.value] + Tasks() == old(Tasks())
      ensures task == None ==> Tasks() == []
      ensures SameMemory(Snapshot(), SoloSteal(old(Snapshot())))
      ensures SoloSteal(old(Snapshot())).handed == Returned(task)
    {
      var t := top;
      var b := bottom;
      if t < b {
        ItemsFront(buffer[..], t, b);
        assert Slot(buffer[..], t).Some?;
        task := buffer[t % buffer.Length];
        if top != t {  // the compare-exchange
          return None;
        }
        top := t + 1;
        return task;
      }
      return None;
    }

    method Empty() returns (r: bool)
      requires Valid()
      ensures r <==> Tasks() == []
    {
      var b := bottom;
      var t := top;
      r := b <= t;
    }
  }
}
