/** What is asked of a function survives the motion of a loop, and so the pass as a whole is correct. */
module LicmRepeated {
  import opened Ssa
  import opened Erasure
  import opened Paths
  import opened Licm
  import opened LicmPasses
  import opened LicmPrograms

  // ----- every way after the motion goes back to one before it

  lemma WayStart(l: Motion) returns (w: seq<Pos>)
    requires GoodMotion(l) && Inside(After(l), Pos(0, 0))
    ensures
      var p := Pos(0, 0);
      && 0 <= KeptIndex(l, 0, 0) < |KeptOf(l, 0)| && History(l.blocks, w) && w[|w| - 1] == Back(l, p)
         && DefinesToo(l, w, [p])
  {
    hide MovedDefined, KeptOf, KeptIndex, GoodMotion, Follows, After, DefinedBefore, NoneStays;
    var p := Pos(0, 0);
    BackIs(l, p);
    StartIndex(l);
    var upto := Back(l, p).pos;
    FirstPlace(l, p);
    AllStraight(l, 0, 0, upto);
    w := GoOn(l.blocks, [p], 0, 0, upto);
    forall x | x != "" && DefinedBefore(l.blocks, w, x) ensures MovedResult(l, x) { StartDefines(l, w, upto, x); }
    assert !SomeInLoop(l, w) by { NotInFirst(l); }
    if l.pre == 0 { NoneNeeded(l, [p], 0 - (|KeptOf(l, l.pre)| - 1)); }
  }

  lemma StartDefines(l: Motion, w: seq<Pos>, upto: nat, x: string)
    requires |l.blocks| > 0 && upto <= |l.blocks[0].instructions| && NoneStays(l, 0, 0, upto)
    requires |w| == upto + 1 && (forall i :: 0 <= i < |w| ==> w[i] == Pos(0, i)) && DefinedBefore(l.blocks, w, x)
    ensures MovedResult(l, x)
  {
    var i :| 0 <= i < |w| - 1 && Defines(l.blocks, w[i], x);
    assert !Stay(Results(l.moved))(l.blocks[0].instructions[i]);
  }

  lemma NotInFirst(l: Motion)
    requires GoodMotion(l)
    ensures !InLoop(l, 0)
  {
    hide GoodProgram, Collected, LoopTotal;
  }

  lemma StartIndex(l: Motion)
    requires GoodMotion(l)
    ensures KeptIndex(l, 0, 0) == 0 && |KeptOf(l, 0)| > 0
  {
    hide GoodProgram, Collected, GoodLoop, KeptOf;
    assert AllEndOnce(l.blocks) by { EndOnce(l); }
    LastStays(l, 0);
  }

  lemma EndOnce(l: Motion)
    requires GoodMotion(l)
    ensures AllEndOnce(l.blocks)
  {
  }

  /** The next place in the same block. */
  lemma NextIndex(l: Motion, q: Pos, next: Pos)
    requires GoodMotion(l) && Inside(After(l), q) && !AmongMoved(l, q) && next == Pos(q.block, q.pos + 1)
      && Inside(After(l), next)
    ensures KeptIndex(l, next.block, next.pos) == KeptIndex(l, q.block, q.pos) + 1 < |KeptOf(l, q.block)|
    ensures next.block == l.pre ==> next.pos - (|KeptOf(l, l.pre)| - 1) <= 0
  {
    hide GoodProgram, Collected, GoodLoop, KeptOf;
    InstAfter(l, q);
    InstAfter(l, next);
  }

  lemma JumpIsLast(l: Motion, q: Pos)
    requires GoodMotion(l) && Inside(After(l), q) && !IsStraight(InstAt(After(l), q).op)
    ensures !AmongMoved(l, q) && q.pos == |After(l)[q.block].instructions| - 1
    ensures Back(l, q) == Pos(q.block, |l.blocks[q.block].instructions| - 1)
    ensures Last(l.blocks[q.block].instructions) == InstAt(After(l), q)
  {
    hide GoodProgram, Collected, GoodLoop, KeptOf, KeptIndex, After;
    EndOnce(l);
    assert EndsOnce(l.blocks[q.block].instructions);
    InstAfter(l, q);
    BackIs(l, q);
    if AmongMoved(l, q) { MovedStraight(l, q.pos - (|KeptOf(l, q.block)| - 1)); }
    PlaceOfLast(l, q.block, KeptIndex(l, q.block, q.pos));
  }

  lemma MovedStraight(l: Motion, k: nat)
    requires GoodMotion(l) && k < |l.moved|
    ensures IsStraight(l.moved[k].op) && l.moved[k].result != ""
  {
    hide GoodProgram, GoodLoop;
    GoodIsSimple(l);
    assert Movable(l.moved[k]);
  }

  lemma PlaceOfLast(l: Motion, b: nat, i: int)
    requires GoodMotion(l) && b < |l.blocks| && 0 <= i < |KeptOf(l, b)|
    ensures Place(Stay(Results(l.moved)), l.blocks[b].instructions, i) == |l.blocks[b].instructions| - 1 ==>
      i == |KeptOf(l, b)| - 1
  {
    hide GoodProgram, Collected, GoodLoop;
    LastStays(l, b);
  }

  /** A step of the new program from a position whose way back is known. */
  lemma WayStep(l: Motion, v: seq<Pos>, w: seq<Pos>, next: Pos) returns (w1: seq<Pos>)
    requires GoodMotion(l) && History(After(l), v) && Follows(After(l), v[|v| - 1], next)
    requires Inside(After(l), v[|v| - 1])
    requires var q := v[|v| - 1]; 0 <= KeptIndex(l, q.block, q.pos) < |KeptOf(l, q.block)|
    requires History(l.blocks, w) && w[|w| - 1] == Back(l, v[|v| - 1]) && DefinesToo(l, w, v)
    ensures 0 <= KeptIndex(l, next.block, next.pos) < |KeptOf(l, next.block)|
    ensures History(l.blocks, w1) && w1[|w1| - 1] == Back(l, next) && DefinesToo(l, w1, v + [next])
  {
    hide GoodMotion, DefinesToo, KeptOf, KeptIndex, After, NoneStays, AmongMoved, Follows;
    var q := v[|v| - 1];
    FollowsMeans(After(l), q, next);
    BackIs(l, q);
    BackIs(l, next);
    if AmongMoved(l, q) {
      w1 := w;
      PassMoved(l, v, w, q, next);
    } else if IsStraight(InstAt(After(l), q).op) {
      NextIndex(l, q, next);
      var from := Back(l, q).pos + 1;
      NextPlace(l, q, next);
      assert Follows(l.blocks, Back(l, q), Pos(next.block, from)) by { StraightFollows(l, q, next); }
      w1 := StayOn(l, w, v, Back(l, q), q, next, from);
    } else {
      JumpIsLast(l, q);
      Entered(l, v, w, q, next);
      FirstPlace(l, next);
      w1 := StayOn(l, w, v, Back(l, q), q, next, 0);
    }
  }

  lemma FollowsMeans(blocks: seq<SSABasicBlock>, p: Pos, q: Pos)
    requires Follows(blocks, p, q)
    ensures Inside(blocks, p) && Inside(blocks, q)
    ensures if IsStraight(InstAt(blocks, p).op) then q == Pos(p.block, p.pos + 1) else q.pos == 0
  {
  }

  lemma PassMoved(l: Motion, v: seq<Pos>, w: seq<Pos>, q: Pos, next: Pos)
    requires GoodMotion(l) && |v| > 0 && v[|v| - 1] == q && Inside(After(l), q) && AmongMoved(l, q)
      && Follows(After(l), q, next)
    requires DefinesToo(l, w, v)
    ensures Back(l, next) == Back(l, q) && next.block == l.pre && DefinesToo(l, w, v + [next])
  {
    hide GoodMotion, DefinedBefore, KeptOf, After;
    InstAfter(l, q);
    var k := q.pos - (|KeptOf(l, l.pre)| - 1);
    MovedStraight(l, k);
    forall x | x != "" && !MovedResult(l, x) && DefinedBefore(l.blocks, w, x)
      ensures DefinedBefore(After(l), v + [next], x) {
      DefinedLonger(After(l), v, next, x);
    }
    if SomeInLoop(l, w) { MovedLonger(l, v, next, |l.moved|); }
    forall i | 0 <= i < k + 1 && i < |l.moved| ensures DefinedBefore(After(l), v + [next], l.moved[i].result) {
      DefinedLonger(After(l), v, next, l.moved[i].result);
    }
  }

  lemma NextPlace(l: Motion, q: Pos, next: Pos)
    requires GoodMotion(l) && Inside(After(l), q) && next.block == q.block
    requires KeptIndex(l, next.block, next.pos) == KeptIndex(l, q.block, q.pos) + 1 < |KeptOf(l, q.block)|
    requires 0 <= KeptIndex(l, q.block, q.pos)
    ensures Back(l, q).pos + 1 <= Back(l, next).pos && NoneStays(l, next.block, Back(l, q).pos + 1, Back(l, next).pos)
  {
    hide GoodMotion, KeptIndex;
    PlaceNext(Stay(Results(l.moved)), l.blocks[q.block].instructions, KeptIndex(l, q.block, q.pos));
  }

  lemma StraightFollows(l: Motion, q: Pos, next: Pos)
    requires GoodMotion(l) && Inside(After(l), q) && Inside(After(l), next) && next.block == q.block
      && !AmongMoved(l, q)
    requires 0 <= KeptIndex(l, q.block, q.pos)
      && KeptIndex(l, next.block, next.pos) == KeptIndex(l, q.block, q.pos) + 1 < |KeptOf(l, q.block)|
    requires IsStraight(InstAt(After(l), q).op)
    ensures Follows(l.blocks, Back(l, q), Pos(next.block, Back(l, q).pos + 1))
  {
    hide GoodMotion, KeptIndex, KeptOf, After;
    BackIs(l, q);
    NextPlace(l, q, next);
  }

  lemma FirstPlace(l: Motion, next: Pos)
    requires GoodMotion(l) && Inside(After(l), next) && next.pos == 0
    ensures KeptIndex(l, next.block, 0) == 0 < |KeptOf(l, next.block)| && NoneStays(l, next.block, 0, Back(l, next).pos)
    ensures next.block == l.pre ==> 0 - (|KeptOf(l, l.pre)| - 1) <= 0
  {
    hide GoodProgram, GoodLoop, Collected, Kept;
    LastStays(l, next.block);
    PlaceFirst(Stay(Results(l.moved)), l.blocks[next.block].instructions);
  }

  /** A jump goes to the same block in both; if into the loop, from the block before it, past what was moved. */
  lemma Entered(l: Motion, v: seq<Pos>, w: seq<Pos>, q: Pos, next: Pos)
    requires GoodMotion(l) && |v| > 0 && v[|v| - 1] == q && Follows(After(l), q, next)
      && !IsStraight(InstAt(After(l), q).op)
    requires DefinesToo(l, w, v)
    ensures Inside(After(l), q) && Inside(l.blocks, Pos(next.block, 0)) && Inside(l.blocks, Back(l, q))
    ensures Follows(l.blocks, Back(l, q), Pos(next.block, 0))
    ensures InLoop(l, next.block) ==> InLoop(l, q.block) || MovedDefined(l, v, |l.moved|)
  {
    hide GoodProgram, Collected, DefinedBefore, Targets, KeptOf, LoopTotal;
    EndOnce(l);
    JumpIsLast(l, q);
    InstAfter(l, q);
    assert EndsOnce(l.blocks[next.block].instructions);
    var b, j := q.block, |l.blocks[q.block].instructions| - 1;
    GoodIsSimple(l);
    assert At(l, b, j);
    assert Enters(l, b, l.blocks[b].instructions[j]);
  }

  /** The way of the original program that goes with one of the new program. */
  lemma {:induction false} WayBack(l: Motion, v: seq<Pos>) returns (w: seq<Pos>)
    requires GoodMotion(l) && History(After(l), v)
    ensures
      var q := v[|v| - 1];
      && Inside(After(l), q) && 0 <= KeptIndex(l, q.block, q.pos) < |KeptOf(l, q.block)|
      && History(l.blocks, w) && w[|w| - 1] == Back(l, q) && DefinesToo(l, w, v)
    decreases |v|
  {
    hide GoodMotion, DefinesToo, KeptOf, KeptIndex, After, Follows;
    HistoryInside(After(l), v, |v| - 1);
    if |v| == 1 {
      assert v == [Pos(0, 0)];
      w := WayStart(l);
    } else {
      var u := v[..|v| - 1];
      var i := |v| - 2;
      assert Follows(After(l), v[i], v[i + 1]);
      assert History(After(l), u) by { Shorter(After(l), v); }
      var w0 := WayBack(l, u);
      w := WayStep(l, u, w0, v[|v| - 1]);
      assert u + [v[|v| - 1]] == v;
    }
  }

  lemma Shorter(blocks: seq<SSABasicBlock>, v: seq<Pos>)
    requires History(blocks, v) && |v| > 1
    ensures History(blocks, v[..|v| - 1])
  {
    hide Follows;
    var u := v[..|v| - 1];
    forall i, j | 0 <= i && j == i + 1 && j < |u| ensures Follows(blocks, u[i], u[j]) {
      assert Follows(blocks, v[i], v[j]);
    }
  }

  // ----- definitions still dominate uses

  lemma AssignedBack(l: Motion, x: string)
    requires GoodMotion(l) && Assigned(After(l), x)
    ensures Assigned(l.blocks, x)
  {
    hide GoodMotion, KeptOf, KeptIndex, After;
    var p: Pos :| Inside(After(l), p) && InstAt(After(l), p).result == x && !InstAt(After(l), p).op.ArrayAlloc?;
    BackIs(l, p);
    if AmongMoved(l, p) {
      InstAfter(l, p);
      var from := FromHere(l, p.pos - (|KeptOf(l, p.block)| - 1));
    }
  }

  /** A moved instruction comes from the loop. */
  lemma FromHere(l: Motion, k: nat) returns (p: Pos)
    requires GoodMotion(l) && k < |l.moved|
    ensures Inside(l.blocks, p) && InLoop(l, p.block) && InstAt(l.blocks, p) == l.moved[k]
  {
    hide GoodProgram, GoodLoop, LoopResults;
    assert FromLoop(l.blocks, l.inLoop, l.moved[k]);
    var b: nat, j: nat :| AssignedInBlock(l.blocks, l.inLoop, l.moved[k].result, b, j)
      && l.blocks[b].instructions[j] == l.moved[k];
    p := Pos(b, j);
  }

  lemma {:induction false} PathHistory(blocks: seq<SSABasicBlock>, path: seq<nat>) returns (w: seq<Pos>)
    requires AllEndOnce(blocks) && BlockPath(blocks, path)
    ensures History(blocks, w) && w[|w| - 1] == Pos(path[|path| - 1], 0)
    decreases |path|
  {
    hide Targets;
    if |path| == 1 {
      assert EndsOnce(blocks[0].instructions);
      w := [Pos(0, 0)];
    } else {
      var init := path[..|path| - 1];
      assert BlockPath(blocks, init) by { ShorterPath(blocks, path); }
      var w0 := PathHistory(blocks, init);
      var i := |path| - 2;
      var b, c := path[i], path[i + 1];
      assert EndsOnce(blocks[b].instructions) && EndsOnce(blocks[c].instructions);
      var n := |blocks[b].instructions| - 1;
      w := GoOn(blocks, w0, b, 0, n);
      Longer(blocks, w, Pos(c, 0));
      w := w + [Pos(c, 0)];
    }
  }

  lemma ShorterPath(blocks: seq<SSABasicBlock>, path: seq<nat>)
    requires AllEndOnce(blocks) && BlockPath(blocks, path) && |path| > 1
    ensures BlockPath(blocks, path[..|path| - 1])
  {
    hide Targets;
    var init := path[..|path| - 1];
    forall i, j | 0 <= i && j == i + 1 && j < |init|
      ensures blocks[init[j]].name in Targets(Last(blocks[init[i]].instructions)) {
      assert blocks[path[j]].name in Targets(Last(blocks[path[i]].instructions));
    }
  }

  lemma ReachesPlace(blocks: seq<SSABasicBlock>, p: Pos) returns (w: seq<Pos>)
    requires AllEndOnce(blocks) && Inside(blocks, p) && Reached(blocks, p.block)
    ensures History(blocks, w) && w[|w| - 1] == p
  {
    var path :| BlockPath(blocks, path) && path[|path| - 1] == p.block;
    var w0 := PathHistory(blocks, path);
    assert EndsOnce(blocks[p.block].instructions);
    w := GoOn(blocks, w0, p.block, 0, p.pos);
  }

  /** The last place outside the loop on a way into it. */
  lemma {:induction false} LastOutside(l: Motion, w: seq<Pos>, n: nat) returns (t: nat)
    requires n < |w| && !InLoop(l, w[0].block) && InLoop(l, w[n].block)
    ensures t < n && !InLoop(l, w[t].block) && forall i :: t < i <= n ==> InLoop(l, w[i].block)
    decreases n
  {
    if InLoop(l, w[n - 1].block) { t := LastOutside(l, w, n - 1); } else { t := n - 1; }
  }

  /** From the jump before the loop control can go to any place in the loop, staying in it. */
  lemma IntoLoop(l: Motion, p: Pos) returns (tail: seq<Pos>)
    requires GoodMotion(l) && Inside(l.blocks, p) && InLoop(l, p.block)
    ensures l.pre < |l.blocks| && |l.blocks[l.pre].instructions| > 0
    ensures |tail| > 1 && tail[0] == Pos(l.pre, |l.blocks[l.pre].instructions| - 1) && tail[|tail| - 1] == p
    ensures forall i, j :: 0 <= i && j == i + 1 && j < |tail| ==> Follows(l.blocks, tail[i], tail[j])
    ensures forall i :: 1 <= i < |tail| ==> Inside(l.blocks, tail[i]) && InLoop(l, tail[i].block)
  {
    hide Collected, Targets, SingleAssignment, DefsDominateUses, BlockPath, LoopTotal;
    var w := ReachesPlace(l.blocks, p);
    GoodIsSimple(l);
    var t := LastOutside(l, w, |w| - 1);
    assert Follows(l.blocks, w[t], w[t + 1]);
    assert At(l, w[t].block, w[t].pos);
    assert Enters(l, w[t].block, InstAt(l.blocks, w[t]));
    assert EndsOnce(l.blocks[w[t].block].instructions);
    tail := w[t..];
    forall i, j | 0 <= i && j == i + 1 && j < |tail| ensures Follows(l.blocks, tail[i], tail[j]) {
      assert Follows(l.blocks, w[t + i], w[t + j]);
    }
    forall i | 1 <= i < |tail| ensures Inside(l.blocks, tail[i]) && InLoop(l, tail[i].block) {
      HistoryInside(l.blocks, w, t + i);
    }
  }

  lemma Joined(blocks: seq<SSABasicBlock>, w: seq<Pos>, tail: seq<Pos>)
    requires History(blocks, w) && |tail| > 1 && tail[0] == w[|w| - 1]
    requires forall i, j :: 0 <= i && j == i + 1 && j < |tail| ==> Follows(blocks, tail[i], tail[j])
    ensures History(blocks, w + tail[1..])
  {
    hide Follows;
    var v := w + tail[1..];
    forall i, j | 0 <= i && j == i + 1 && j < |v| ensures Follows(blocks, v[i], v[j]) {
      if j < |w| {
        assert Follows(blocks, w[i], w[j]);
      } else {
        assert Follows(blocks, tail[i - (|w| - 1)], tail[j - (|w| - 1)]);
      }
    }
  }

  /** What a moved instruction reads, other moved results apart, is defined before the loop. */
  lemma OutsideDefined(l: Motion, w: seq<Pos>, k: nat, x: string)
    requires GoodMotion(l) && History(l.blocks, w) && k < |l.moved| && Reads(l.moved[k], x) && Assigned(l.blocks, x)
      && OutsideLoop(l, x)
    requires l.pre < |l.blocks| && w[|w| - 1] == Pos(l.pre, |l.blocks[l.pre].instructions| - 1)
    ensures DefinedBefore(l.blocks, w, x)
  {
    hide Collected, Follows, SingleAssignment, Reached, GoodLoop;
    var p := FromHere(l, k);
    var tail := IntoLoop(l, p);
    Joined(l.blocks, w, tail);
    var v := w + tail[1..];
    assert v[|v| - 1] == p;
    forall i | 0 <= i < |tail| ensures !Defines(l.blocks, tail[i], x) { TailDefinesNone(l, tail[i], x); }
    JoinedDefined(l.blocks, w, tail, x);
  }

  lemma TailDefinesNone(l: Motion, p: Pos, x: string)
    requires GoodProgram(l.blocks) && OutsideLoop(l, x) && x != "" && l.pre < |l.blocks|
    requires p == Pos(l.pre, |l.blocks[l.pre].instructions| - 1) || InLoop(l, p.block)
    ensures !Defines(l.blocks, p, x)
  {
    hide SingleAssignment, Reached, DefsDominateUses;
    assert Last(l.blocks[l.pre].instructions).result == "";
    assert Inside(l.blocks, p) ==> At(l, p.block, p.pos);
  }

  lemma JoinedDefined(blocks: seq<SSABasicBlock>, w: seq<Pos>, tail: seq<Pos>, x: string)
    requires |w| > 0 && |tail| > 1 && tail[0] == w[|w| - 1]
      && forall i :: 0 <= i < |tail| ==> !Defines(blocks, tail[i], x)
    requires DefinedBefore(blocks, w + tail[1..], x)
    ensures DefinedBefore(blocks, w, x)
  {
    var v := w + tail[1..];
    forall i | |w| - 1 <= i < |v| ensures !Defines(blocks, v[i], x) { assert v[i] == tail[i - |w| + 1]; }
    var i :| 0 <= i < |v| - 1 && Defines(blocks, v[i], x);
    assert v[i] == w[i];
  }

  lemma UseDefined(l: Motion, v: seq<Pos>, x: string)
    requires GoodMotion(l) && History(After(l), v) && Inside(After(l), v[|v| - 1])
    requires Reads(InstAt(After(l), v[|v| - 1]), x) && Assigned(After(l), x)
    ensures DefinedBefore(After(l), v, x)
  {
    hide KeptIndex, After, Follows, Assigned, Collected, GoodLoop, KeptOf, SingleAssignment, Reached, DefinedBefore;
    var q := v[|v| - 1];
    AssignedBack(l, x);
    var w := WayBack(l, v);
    BackIs(l, q);
    if AmongMoved(l, q) {
      InstAfter(l, q);
      var k := q.pos - (|KeptOf(l, q.block)| - 1);
      GoodIsSimple(l);
      assert l.moved[k] == InstAt(After(l), q);
      if x in Results(l.moved) {
        assert x in Results(l.moved[..k]);
        var i :| 0 <= i < k && l.moved[..k][i].result == x;
        assert DefinedBefore(After(l), v, l.moved[i].result);
      } else {
        NotMoved(l, x);
        OutsideDefined(l, w, k, x);
      }
    } else {
      assert DefinedBefore(l.blocks, w, x);
      NotMoved(l, x);
      if MovedResult(l, x) { MovedInLoop(l, w, v, x); }
    }
  }

  lemma NotMoved(l: Motion, x: string)
    requires Assigned(l.blocks, x)
    ensures x != ""
  {
  }

  lemma MovedInLoop(l: Motion, w: seq<Pos>, v: seq<Pos>, x: string)
    requires GoodMotion(l) && MovedResult(l, x) && DefinedBefore(l.blocks, w, x) && |v| > 0
      && v[|v| - 1].block < |l.blocks|
    requires DefinesToo(l, w, v)
    ensures DefinedBefore(After(l), v, x)
  {
    hide GoodMotion, KeptOf, After;
    GoodIsSimple(l);
    var i :| 0 <= i < |w| - 1 && Defines(l.blocks, w[i], x);
    assert At(l, w[i].block, w[i].pos);
    assert OnlyMoved(l, w[i].block, InstAt(l.blocks, w[i]));
    assert SomeInLoop(l, w);
    var k :| 0 <= k < |l.moved| && l.moved[k].result == x;
  }

  // ----- the rest of what is asked

  lemma StillEndsOnce(l: Motion, b: nat)
    requires GoodMotion(l) && b < |l.blocks|
    ensures var q := After(l)[b].instructions; EndsOnce(q) && Last(q) == Last(l.blocks[b].instructions)
  {
    hide GoodMotion, KeptOf, KeptIndex, After, Place;
    EndOnce(l);
    assert EndsOnce(l.blocks[b].instructions);
    InstAfter(l, Pos(b, 0));
    LastStays(l, b);
    var q := After(l)[b].instructions;
    var last := Pos(b, |q| - 1);
    InstAfter(l, last);
    BackIs(l, last);
    assert Inside(After(l), last);
    assert !AmongMoved(l, last);
    forall j | 0 <= j < |q| - 1 ensures IsStraight(q[j].op) {
      var p := Pos(b, j);
      assert Inside(After(l), p) && InstAt(After(l), p) == q[j];
      if !IsStraight(q[j].op) { JumpIsLast(l, p); }
    }
  }

  lemma StillReached(l: Motion, b: nat)
    requires GoodMotion(l) && b < |l.blocks| && AllEndOnce(After(l))
    ensures Reached(After(l), b)
  {
    hide Collected, GoodLoop, Targets, After, SingleAssignment, DefsDominateUses;
    assert Reached(l.blocks, b);
    var path :| BlockPath(l.blocks, path) && path[|path| - 1] == b;
    forall i, j | 0 <= i && j == i + 1 && j < |path|
      ensures After(l)[path[j]].name in Targets(Last(After(l)[path[i]].instructions))
    {
      StillEndsOnce(l, path[i]);
    }
    assert BlockPath(After(l), path);
  }

  /** After the motion the function is as good as before. */
  lemma StillGood(l: Motion)
    requires GoodMotion(l)
    ensures GoodProgram(After(l))
  {
    hide Collected, GoodLoop, After, SingleAssignment, EndsOnce, Follows, Reads, Assigned, Reached, DefinedBefore;
    var q := After(l);
    assert SingleAssignment(q) by { StillSingle(l); }
    forall b | 0 <= b < |q| ensures EndsOnce(q[b].instructions) { StillEndsOnce(l, b); }
    forall b | 0 <= b < |q| ensures |q[b].instructions| > 0 && Last(q[b].instructions).result == "" {
      JumpStillWritesNothing(l, b);
    }
    forall b: nat | b < |q| ensures Reached(q, b) { StillReached(l, b); }
    forall v, x | History(q, v) && Inside(q, v[|v| - 1]) && Reads(InstAt(q, v[|v| - 1]), x) && Assigned(q, x)
      ensures DefinedBefore(q, v, x) {
      UseDefined(l, v, x);
    }
  }

  lemma JumpStillWritesNothing(l: Motion, b: nat)
    requires GoodMotion(l) && b < |l.blocks|
    ensures |After(l)[b].instructions| > 0 && Last(After(l)[b].instructions).result == ""
  {
    hide Collected, GoodLoop, After, SingleAssignment, Reached, DefsDominateUses;
    StillEndsOnce(l, b);
  }

  lemma StillSingle(l: Motion)
    requires GoodMotion(l)
    ensures SingleAssignment(After(l))
  {
    hide DefsDominateUses, Reached, SingleAssignment, FromLoop, Invariant, EnteredOnce, LoopTotal;
    AfterSingle(l);
  }

  /** Other loops are as good as before. */
  lemma StillGoodLoop(l: Motion, inLoop: set<string>, pre: nat)
    requires GoodMotion(l) && GoodLoop(l.blocks, inLoop, pre)
    ensures GoodLoop(After(l), inLoop, pre)
  {
    hide GoodMotion, After, EnteredOnce, LoopTotal;
    StillEndsOnce(l, pre);
    StillEntered(l, inLoop, pre);
    StillTotal(l, inLoop);
  }

  lemma StillEntered(l: Motion, inLoop: set<string>, pre: nat)
    requires GoodMotion(l) && EnteredOnce(Motion(l.blocks, inLoop, pre, []))
    ensures EnteredOnce(Motion(After(l), inLoop, pre, []))
  {
    hide GoodMotion, After;
    var k, k' := Motion(l.blocks, inLoop, pre, []), Motion(After(l), inLoop, pre, []);
    forall b: nat, j: nat | At(k', b, j) ensures Enters(k', b, After(l)[b].instructions[j]) {
      var p := Pos(b, j);
      assert Inside(After(l), p) && InstAt(After(l), p) == After(l)[b].instructions[j];
      if !IsStraight(InstAt(After(l), p).op) {
        JumpIsLast(l, p);
        assert At(k, b, |l.blocks[b].instructions| - 1);
        assert Enters(k, b, Last(l.blocks[b].instructions));
      }
    }
  }

  lemma StillTotal(l: Motion, inLoop: set<string>)
    requires GoodMotion(l) && LoopTotal(l.blocks, inLoop)
    ensures LoopTotal(After(l), inLoop)
  {
    hide GoodMotion, After, KeptOf, KeptIndex, TotalIfMoved;
    forall p | Inside(After(l), p) && After(l)[p.block].name in inLoop ensures TotalIfMoved(InstAt(After(l), p)) {
      BackIs(l, p);
      InstAfter(l, p);
      if AmongMoved(l, p) { MovedTotal(l, p.pos - (|KeptOf(l, p.block)| - 1)); }
    }
  }

  lemma MovedTotal(l: Motion, k: nat)
    requires GoodMotion(l) && k < |l.moved|
    ensures TotalIfMoved(l.moved[k])
  {
    hide GoodMotion;
    GoodIsSimple(l);
  }

  // ----- the pass

  /** What is asked of a function, and of the loops that the pass finds in it. */
  ghost predicate GoodFunction(func: seq<SSABasicBlock>, preds: map<string, seq<string>>,
      dominators: map<string, set<string>>) {
    && GoodProgram(func)
    && forall i: nat :: i < |func| && LoopAt(func, preds, dominators, i).Some? ==>
         GoodLoop(func, LoopAt(func, preds, dominators, i).value.0, LoopAt(func, preds, dominators, i).value.1)
  }

  ghost predicate LoopsGood(func: seq<SSABasicBlock>, preds: map<string, seq<string>>,
      dominators: map<string, set<string>>, blocks: seq<SSABasicBlock>) {
    forall i: nat :: i < |func| && LoopAt(func, preds, dominators, i).Some? ==>
      GoodLoop(blocks, LoopAt(func, preds, dominators, i).value.0, LoopAt(func, preds, dominators, i).value.1)
  }

  lemma {:induction false} PassedGood(func: seq<SSABasicBlock>, preds: map<string, seq<string>>,
      dominators: map<string, set<string>>, i: nat,
                                      steps: seq<Motion>, blocks: seq<SSABasicBlock>, world: World, s: Store)
    requires GoodFunction(func, preds, dominators) && i <= |func| && Passed(func, preds, dominators, i, steps, blocks)
    ensures GoodProgram(blocks) && LoopsGood(func, preds, dominators, blocks)
    ensures StopsAlike(func, blocks, world, Config(0, 0, s), Config(0, 0, s))
    decreases i
  {
    hide GoodProgram, GoodLoop, Collected, Exhausted, After, LoopAt, StopsAlike;
    if i == 0 {
      SameAlike(func, world, Config(0, 0, s));
    } else if LoopAt(func, preds, dominators, i - 1).None? {
      PassedGood(func, preds, dominators, i - 1, steps, blocks, world, s);
    } else {
      var l := steps[|steps| - 1];
      PassedGood(func, preds, dominators, i - 1, steps[..|steps| - 1], l.blocks, world, s);
      assert GoodMotion(l);
      StillGood(l);
      forall j: nat | j < |func| && LoopAt(func, preds, dominators, j).Some?
        ensures GoodLoop(blocks, LoopAt(func, preds, dominators, j).value.0, LoopAt(func, preds, dominators, j).value.1)
      {
        StillGoodLoop(l, LoopAt(func, preds, dominators, j).value.0, LoopAt(func, preds, dominators, j).value.1);
      }
      GoodDominates(l);
      GoodIsSimple(l);
      HoistLoopCorrect(l, world, s);
      StopsAlikeTrans(func, l.blocks, blocks, world, Config(0, 0, s));
    }
  }

  /** Correctness of the pass, from the function alone: with single assignment, definitions that dominate
      uses and all blocks reachable, if each loop that the pass finds is entered only from the block before
      it and its instructions without side effects cannot fault, the optimised function stops exactly when
      and how the original does, however many loops are treated. */
  lemma PassCorrect(func: seq<SSABasicBlock>, preds: map<string, seq<string>>, dominators: map<string, set<string>>,
                    steps: seq<Motion>, blocks: seq<SSABasicBlock>, world: World, s: Store)
    requires GoodFunction(func, preds, dominators) && Passed(func, preds, dominators, |func|, steps, blocks)
    ensures StopsAlike(func, blocks, world, Config(0, 0, s), Config(0, 0, s))
    ensures GoodProgram(blocks)
  {
    hide GoodFunction, Passed, StopsAlike, GoodProgram;
    PassedGood(func, preds, dominators, |func|, steps, blocks, world, s);
  }
}
