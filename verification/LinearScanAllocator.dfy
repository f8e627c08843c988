/** The allocator object of src/backend/regalloc/LinearScanAllocator.hpp: free registers, active list
    and spill offset as fields, intervals updated in place in the caller's vector. Its methods are
    proved to perform the scan of module LinearScan, so they are safe and optimal. */
module LinearScanAllocators {
  import opened LinearScan
  import opened SpillOptimality

  datatype ArchType = X86_64 | X86_32 | ARM64

  /** The pool of the integer class, as an allocation starts. */
  function Gprs(arch: ArchType): (r: seq<int>)
    ensures Distinct(r) && -1 !in r && |r| == if arch == X86_64 then 7 else 17
    ensures arch == X86_64 ==> forall x :: x in r ==> x == 3 || 10 <= x <= 15
    ensures arch != X86_64 ==> forall x :: x in r ==> 9 <= x <= 15 || 19 <= x <= 28
  {
    if arch == X86_64 then [10, 11, 3, 12, 13, 14, 15]
    else [9, 10, 11, 12, 13, 14, 15, 19, 20, 21, 22, 23, 24, 25, 26, 27, 28]
  }

  predicate DistinctNames(ivs: seq<LiveInterval>) {
    forall i, j :: 0 <= i < j < |ivs| ==> ivs[i].varName != ivs[j].varName
  }

  class LinearScanAllocator {
    var freeGPRs: seq<int>
    var activeIntervals: seq<nat>
    var currentSpillOffset: int
    /** How the active list is sorted by end points, equal ones left open. */
    const sort: Sorter

    constructor (sort: Sorter)
      ensures this.sort == sort
    {
      freeGPRs, activeIntervals, currentSpillOffset := [], [], 0;
      this.sort := sort;
    }

    ghost function State(intervals: array<LiveInterval>): Scan
      reads this, intervals
    {
      Scan(intervals[..], activeIntervals, freeGPRs, currentSpillOffset)
    }

    method ExpireOldIntervals(intervals: array<LiveInterval>, current: nat)
      requires current < intervals.Length && InRange(activeIntervals, intervals.Length)
      modifies this
      ensures State(intervals) == Expired(old(State(intervals)), intervals[current].startPoint)
      ensures InRange(activeIntervals, intervals.Length)
    {
      ghost var ivs, all, free := intervals[..], activeIntervals, freeGPRs;
      var it := 0;
      ghost var done := 0;
      while it < |activeIntervals|
        invariant 0 <= it <= |activeIntervals| && 0 <= done <= |all| && InRange(activeIntervals, |ivs|)
        invariant activeIntervals[it..] == all[done..]
        invariant Expire(ivs, all[..done], free, ivs[current].startPoint) == (activeIntervals[..it], freeGPRs)
        invariant currentSpillOffset == old(currentSpillOffset)
        decreases |activeIntervals| - it
      {
        var active := activeIntervals[it];
        ghost var before := activeIntervals;
        assert active == all[done] && all[..done + 1][..done] == all[..done];
        if intervals[active].endPoint < intervals[current].startPoint {
          if intervals[active].reg != -1 && intervals[active].reg !in freeGPRs {
            freeGPRs := freeGPRs + [intervals[active].reg];
          }
          activeIntervals := activeIntervals[..it] + activeIntervals[it + 1..];
          assert activeIntervals[..it] == before[..it];
        } else {
          it := it + 1;
          assert activeIntervals[..it] == before[..it - 1] + [active];
        }
        done := done + 1;
      }
      assert all[..done] == all;
      assert activeIntervals[..it] == activeIntervals;
    }

    method SpillAtInterval(intervals: array<LiveInterval>, current: nat)
      requires current < intervals.Length && InRange(activeIntervals, intervals.Length)
      modifies this, intervals
      ensures State(intervals) == SpillAt(sort, old(State(intervals)), current)
      ensures InRange(activeIntervals, intervals.Length)
    {
      if activeIntervals == [] {
        currentSpillOffset := currentSpillOffset - 8;
        intervals[current] := intervals[current].(isSpilled := true, stackOffset := currentSpillOffset);
        return;
      }
      var spillCandidate := activeIntervals[|activeIntervals| - 1];
      if intervals[spillCandidate].endPoint > intervals[current].endPoint {
        intervals[current] := intervals[current].(reg := intervals[spillCandidate].reg);
        currentSpillOffset := currentSpillOffset - 8;
        intervals[spillCandidate] :=
          intervals[spillCandidate].(reg := -1, isSpilled := true, stackOffset := currentSpillOffset);
        activeIntervals := Sorted(sort, intervals[..], activeIntervals[..|activeIntervals| - 1] + [current]);
      } else {
        currentSpillOffset := currentSpillOffset - 8;
        intervals[current] := intervals[current].(isSpilled := true, stackOffset := currentSpillOffset);
      }
    }

    method VisitInterval(intervals: array<LiveInterval>, current: nat)
      requires current < intervals.Length && InRange(activeIntervals, intervals.Length)
      modifies this, intervals
      ensures State(intervals) == Visit(sort, old(State(intervals)), current)
      ensures InRange(activeIntervals, intervals.Length)
    {
      ExpireOldIntervals(intervals, current);
      if freeGPRs == [] {
        SpillAtInterval(intervals, current);
      } else {
        var regId := freeGPRs[|freeGPRs| - 1];
        freeGPRs := freeGPRs[..|freeGPRs| - 1];
        intervals[current] := intervals[current].(reg := regId);
        activeIntervals := Sorted(sort, intervals[..], activeIntervals + [current]);
      }
    }

    ghost predicate Located(ivs: seq<LiveInterval>, n: nat, varToReg: map<string, int>, varToStack: map<string, int>)
      requires n <= |ivs|
    {
      && (forall x :: x in varToReg || x in varToStack ==> exists j :: 0 <= j < n && ivs[j].varName == x)
      && forall j :: 0 <= j < n ==> HasLocation(ivs[j], varToReg, varToStack)
    }

    /** Exactly one location: the stack slot of a spilled interval, the register of any other. */
    ghost predicate HasLocation(iv: LiveInterval, varToReg: map<string, int>, varToStack: map<string, int>) {
      if iv.isSpilled
      then iv.varName in varToStack && varToStack[iv.varName] == iv.stackOffset && iv.varName !in varToReg
      else iv.varName in varToReg && varToReg[iv.varName] == iv.reg && iv.varName !in varToStack
    }

    method ScanIntervals(intervals: array<LiveInterval>, arch: ArchType)
      modifies this, intervals
      ensures State(intervals) == Allocated(sort, old(intervals[..]), Gprs(arch))
    {
      hide Visit;
      ghost var ivs := intervals[..];
      activeIntervals := [];
      currentSpillOffset := 0;
      freeGPRs := Gprs(arch);
      var i := 0;
      while i < intervals.Length
        invariant 0 <= i <= intervals.Length && InRange(activeIntervals, intervals.Length)
        invariant ScanFrom(sort, State(intervals), i) == Allocated(sort, ivs, Gprs(arch))
      {
        VisitInterval(intervals, i);
        i := i + 1;
      }
    }

    method CollectLocations(intervals: array<LiveInterval>)
        returns (varToReg: map<string, int>, varToStack: map<string, int>)
      requires DistinctNames(intervals[..])
      requires forall i :: 0 <= i < intervals.Length && !intervals[i].isSpilled ==> intervals[i].reg != -1
      ensures Located(intervals[..], intervals.Length, varToReg, varToStack)
    {
      varToReg, varToStack := map[], map[];
      var i := 0;
      while i < intervals.Length
        invariant 0 <= i <= intervals.Length
        invariant Located(intervals[..], i, varToReg, varToStack)
      {
        var iv := intervals[i];
        assert forall j :: 0 <= j < i ==> intervals[..][j].varName != iv.varName;
        if iv.isSpilled {
          varToStack := varToStack[iv.varName := iv.stackOffset];
        } else if iv.reg != -1 {
          varToReg := varToReg[iv.varName := iv.reg];
        }
        assert intervals[..][i].varName == iv.varName;
        assert HasLocation(iv, varToReg, varToStack);
        forall j | 0 <= j < i ensures HasLocation(intervals[..][j], varToReg, varToStack) {
          assert intervals[..][j].varName != iv.varName;
        }
        i := i + 1;
      }
    }

    /** The allocation: each name gets its one location, and the spill area is the smallest that any
        valid assignment of the registers needs. */
    method Allocate(intervals: array<LiveInterval>, arch: ArchType)
      returns (varToReg: map<string, int>, varToStack: map<string, int>, totalStackSpillBytes: int)
      requires Fresh(intervals[..]) && DistinctNames(intervals[..])
      modifies this, intervals
      ensures intervals[..] == Allocated(sort, old(intervals[..]), Gprs(arch)).ivs
      ensures Located(intervals[..], intervals.Length, varToReg, varToStack)
      ensures totalStackSpillBytes == -Allocated(sort, old(intervals[..]), Gprs(arch)).spillOffset
      ensures forall rival :: Rival(old(intervals[..]), Gprs(arch), rival) ==>
                totalStackSpillBytes <= 8 * (intervals.Length - |rival.Keys|)
    {
      hide Allocated, Rival;
      ghost var ivs := intervals[..];
      ScanIntervals(intervals, arch);
      AllocationIsSafe(sort, ivs, Gprs(arch));
      forall rival | Rival(ivs, Gprs(arch), rival)
        ensures -Allocated(sort, ivs, Gprs(arch)).spillOffset <= 8 * (|ivs| - |rival.Keys|)
      {
        AllocationIsOptimal(sort, ivs, Gprs(arch), rival);
      }
      assert forall i :: 0 <= i < |ivs| ==> SameSpan(ivs[i], intervals[..][i]);
      varToReg, varToStack := CollectLocations(intervals);
      totalStackSpillBytes := -currentSpillOffset;
    }
  }
}
