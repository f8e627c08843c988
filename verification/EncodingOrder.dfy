/** The order in which a program's functions are encoded, and their labels. */
module EncodingOrder {
  import opened Ssa
  import opened X86
  import opened Encoding
  import opened EncodingLayout

  // ----- names

  ghost predicate NoDuplicates<T>(s: seq<T>) {
    forall i, j :: 0 <= i < j < |s| ==> s[i] != s[j]
  }

  /** The labels of a function: its name and those of its blocks. */
  function OwnLabels(fn: SSAFunction): seq<string> {
    [fn.name] + BlockLabels(fn.blocks)
  }

  function BlockLabels(blocks: seq<SSABasicBlock>): seq<string> {
    if blocks == [] then [] else BlockLabels(blocks[..|blocks| - 1]) + [blocks[|blocks| - 1].name]
  }

  ghost predicate LabelsApart(f: SSAFunction, g: SSAFunction) {
    forall x :: x in OwnLabels(f) ==> x !in OwnLabels(g)
  }

  /** No label is used twice, in a function or in two. */
  ghost predicate DistinctNames(program: seq<SSAFunction>) {
    && (forall f :: f in program ==> NoDuplicates(OwnLabels(f)))
    && forall i, j :: 0 <= i < j < |program| ==> LabelsApart(program[i], program[j])
  }

  // ----- the order

  /** `_start` comes first, then `main`, then all others. */
  function Rank(name: string): nat {
    if name == "_start" then 0 else if name == "main" then 1 else 2
  }

  /** f is encoded before g: its rank is lower, or it is the same and f is listed first. */
  ghost predicate Precedes(program: seq<SSAFunction>, f: SSAFunction, g: SSAFunction) {
    exists i, j :: 0 <= i < |program| && 0 <= j < |program| && program[i] == f && program[j] == g
      && (Rank(f.name) < Rank(g.name) || (Rank(f.name) == Rank(g.name) && i < j))
  }

  /** The functions encoded before one. */
  ghost predicate EncodedBefore(program: seq<SSAFunction>, fn: SSAFunction, before: seq<SSAFunction>) {
    && (forall g :: g in before <==> Precedes(program, g, fn))
    && forall i, j :: 0 <= i < j < |before| ==> Precedes(program, before[i], before[j])
  }

  /** Where the code is entered when it is run from its first byte. */
  ghost predicate IsEntry(program: seq<SSAFunction>, fn: SSAFunction) {
    fn in program &&
    if exists f :: f in program && f.name == "_start" then fn.name == "_start"
    else if exists f :: f in program && f.name == "main" then fn.name == "main"
    else fn == program[0]
  }

  lemma NameIsLabel(f: SSAFunction)
    ensures f.name in OwnLabels(f)
  {
    assert OwnLabels(f)[0] == f.name;
  }

  lemma NamesDiffer(program: seq<SSAFunction>, i: nat, j: nat)
    requires DistinctNames(program) && i < |program| && j < |program| && i != j
    ensures program[i].name != program[j].name && LabelsApart(program[i], program[j])
  {
    hide OwnLabels;
    assert if i < j then LabelsApart(program[i], program[j]) else LabelsApart(program[j], program[i]);
    NameIsLabel(program[i]);
    NameIsLabel(program[j]);
  }

  lemma {:induction false} LastNamedIs(program: seq<SSAFunction>, name: string)
    ensures |LastNamed(program, name)| <= 1
    ensures forall f :: f in LastNamed(program, name) ==> f in program && f.name == name
    ensures LastNamed(program, name) == [] ==> forall f :: f in program ==> f.name != name
    decreases |program|
  {
    if program != [] {
      LastNamedIs(program[..|program| - 1], name);
      assert program == program[..|program| - 1] + [program[|program| - 1]];
    }
  }

  ghost predicate Listed(program: seq<SSAFunction>, f: SSAFunction, g: SSAFunction) {
    exists a, b :: 0 <= a < b < |program| && program[a] == f && program[b] == g
  }

  lemma {:induction false} OthersAre(program: seq<SSAFunction>)
    ensures forall f :: f in Others(program) <==> f in program && Rank(f.name) == 2
    ensures forall i, j :: 0 <= i < j < |Others(program)| ==> Listed(program, Others(program)[i], Others(program)[j])
    decreases |program|
  {
    if program != [] {
      var init, last := program[..|program| - 1], program[|program| - 1];
      OthersAre(init);
      assert program == init + [last];
      var before, all := Others(init), Others(program);
      forall i, j | 0 <= i < j < |all| ensures Listed(program, all[i], all[j]) {
        if j < |before| {
          assert Listed(init, before[i], before[j]);
          var a, b :| 0 <= a < b < |init| && init[a] == before[i] && init[b] == before[j];
          assert program[a] == all[i] && program[b] == all[j];
        } else {
          assert before[i] in init;
          var a :| 0 <= a < |init| && init[a] == before[i];
          assert program[a] == all[i] && program[|init|] == all[j];
        }
      }
    }
  }

  lemma PrecedesOnce(program: seq<SSAFunction>, f: SSAFunction, g: SSAFunction)
    requires DistinctNames(program) && Precedes(program, f, g)
    ensures f != g && !Precedes(program, g, f)
  {
    hide OwnLabels;
    forall i: nat, j: nat | i < |program| && j < |program| && program[i].name == program[j].name ensures i == j {
      if i != j { NamesDiffer(program, i, j); }
    }
  }

  lemma OrderedHas(program: seq<SSAFunction>, f: SSAFunction)
    requires DistinctNames(program)
    ensures f in Ordered(program) <==> f in program
  {
    hide DistinctNames, LastNamed, Others;
    LastNamedIs(program, "_start");
    LastNamedIs(program, "main");
    OthersAre(program);
    if f in program {
      var named := LastNamed(program, f.name);
      LastNamedIs(program, f.name);
      assert named[0] in named;
      SameFunction(program, f, named[0]);
    }
  }

  lemma SameFunction(program: seq<SSAFunction>, f: SSAFunction, g: SSAFunction)
    requires DistinctNames(program) && f in program && g in program && f.name == g.name
    ensures f == g
  {
    var i: nat :| i < |program| && program[i] == f;
    var j: nat :| j < |program| && program[j] == g;
    if i != j { NamesDiffer(program, i, j); }
  }

  lemma OrderedSorted(program: seq<SSAFunction>, i: nat, j: nat)
    requires i < j < |Ordered(program)|
    ensures Precedes(program, Ordered(program)[i], Ordered(program)[j])
  {
    hide LastNamed, Others;
    LastNamedIs(program, "_start");
    LastNamedIs(program, "main");
    OthersAre(program);
    var s, m, o := LastNamed(program, "_start"), LastNamed(program, "main"), Others(program);
    var f, g := Ordered(program)[i], Ordered(program)[j];
    if i < |s| {
      RankPrecedes(program, f, g);
    } else if i < |s| + |m| {
      RankPrecedes(program, f, g);
    } else {
      assert f == o[i - |s| - |m|] && g == o[j - |s| - |m|];
    }
  }

  lemma RankPrecedes(program: seq<SSAFunction>, f: SSAFunction, g: SSAFunction)
    requires f in program && g in program && Rank(f.name) < Rank(g.name)
    ensures Precedes(program, f, g)
  {
    var i: nat :| i < |program| && program[i] == f;
    var j: nat :| j < |program| && program[j] == g;
  }

  /** What is encoded before a function is what precedes it; nothing precedes the entry. */
  lemma OrderExactly(program: seq<SSAFunction>, fn: SSAFunction) returns (k: nat)
    requires DistinctNames(program) && fn in program
    ensures k < |Ordered(program)| && Ordered(program)[k] == fn && EncodedBefore(program, fn, Ordered(program)[..k])
    ensures IsEntry(program, fn) ==> k == 0
  {
    hide DistinctNames, Ordered, Precedes, IsEntry;
    var fns := Ordered(program);
    OrderedHas(program, fn);
    k :| k < |fns| && fns[k] == fn;
    forall i: nat, j: nat | i < j < |fns| ensures Precedes(program, fns[i], fns[j]) { OrderedSorted(program, i, j); }
    forall g ensures g in fns[..k] <==> Precedes(program, g, fn) {
      if Precedes(program, g, fn) {
        PrecedesIn(program, g, fn);
        OrderedHas(program, g);
        PrecedesOnce(program, g, fn);
        var i: nat :| i < |fns| && fns[i] == g;
        assert fns[..k][i] == g;
      }
    }
    if IsEntry(program, fn) && k > 0 { EntryFirst(program, fn, fns[0]); }
  }

  lemma PrecedesIn(program: seq<SSAFunction>, f: SSAFunction, g: SSAFunction)
    requires Precedes(program, f, g)
    ensures f in program
  {
  }

  lemma EntryFirst(program: seq<SSAFunction>, fn: SSAFunction, g: SSAFunction)
    requires DistinctNames(program) && IsEntry(program, fn)
    ensures !Precedes(program, g, fn)
  {
    if Precedes(program, g, fn) {
      PrecedesOnce(program, g, fn);
      PrecedesIn(program, g, fn);
      if Rank(g.name) < 2 {
        if g.name == fn.name { SameFunction(program, fn, g); }
      } else {
        FirstOnce(program, fn);
      }
    }
  }

  lemma FirstOnce(program: seq<SSAFunction>, fn: SSAFunction)
    requires DistinctNames(program) && |program| > 0 && fn == program[0]
    ensures forall i :: 0 <= i < |program| && program[i] == fn ==> i == 0
  {
    forall i: nat | 0 < i < |program| ensures program[i] != fn { NamesDiffer(program, 0, i); }
  }

  // ----- labels

  function LabelNames(items: seq<Item>): seq<string> {
    if items == [] then []
    else
      var last := items[|items| - 1];
      LabelNames(items[..|items| - 1]) + if last.Label? then [last.name] else []
  }

  lemma {:induction false} LabelNamesAppend(a: seq<Item>, b: seq<Item>)
    ensures LabelNames(a + b) == LabelNames(a) + LabelNames(b)
    decreases |b|
  {
    if b == [] {
      assert a + b == a;
    } else {
      assert (a + b)[..|a + b| - 1] == a + b[..|b| - 1];
      LabelNamesAppend(a, b[..|b| - 1]);
    }
  }

  lemma {:induction false} LabelNamesHas(items: seq<Item>, i: nat)
    requires i < |items| && items[i].Label?
    ensures items[i].name in LabelNames(items)
    decreases |items|
  {
    if i < |items| - 1 { LabelNamesHas(items[..|items| - 1], i); }
  }

  lemma {:induction false} LabelsDistinct(items: seq<Item>)
    requires NoDuplicates(LabelNames(items))
    ensures DistinctLabels(items)
    decreases |items|
  {
    if items != [] {
      var init, last := items[..|items| - 1], items[|items| - 1];
      var names := LabelNames(init);
      assert forall k :: 0 <= k < |names| ==> LabelNames(items)[k] == names[k];
      LabelsDistinct(init);
      forall i: nat | i < |init| && init[i].Label? && last.Label? ensures init[i].name != last.name {
        LabelNamesHas(init, i);
        assert LabelNames(items)[|names|] == last.name;
      }
    }
  }

  lemma {:induction false} NoLabels(items: seq<Item>)
    requires forall i :: 0 <= i < |items| ==> !items[i].Label?
    ensures LabelNames(items) == []
    decreases |items|
  {
    if items != [] { NoLabels(items[..|items| - 1]); }
  }

  lemma {:induction false} OpsAreOps(asms: seq<Asm>)
    ensures forall i :: 0 <= i < |Ops(asms)| ==> Ops(asms)[i].Op?
    decreases |asms|
  {
    if asms != [] { OpsAreOps(asms[..|asms| - 1]); }
  }

  lemma CodeNoLabels(f: Frame, sym: Symbols, inst: SSAInstruction)
    ensures LabelNames(Code(f, sym, inst)) == []
  {
    hide Ops, StraightCode, PassAll, LoadCode, StoreCode;
    forall asms: seq<Asm> ensures forall i :: 0 <= i < |Ops(asms)| ==> Ops(asms)[i].Op? { OpsAreOps(asms); }
    NoLabels(Code(f, sym, inst));
  }

  lemma {:induction false} InstsNoLabels(f: Frame, sym: Symbols, insts: seq<SSAInstruction>)
    ensures LabelNames(EncInsts(f, sym, insts)) == []
    decreases |insts|
  {
    hide Code, AllocInsts;
    if insts != [] {
      var init, last := insts[..|insts| - 1], insts[|insts| - 1];
      InstsNoLabels(f, sym, init);
      CodeNoLabels(AllocInsts(f, insts), sym, last);
      LabelNamesAppend(EncInsts(f, sym, init), Code(AllocInsts(f, insts), sym, last));
    }
  }

  lemma OneLabel(items: seq<Item>, name: string, after: seq<Item>)
    requires LabelNames(after) == []
    ensures LabelNames(items + [Label(name)] + after) == LabelNames(items) + [name]
  {
    LabelNamesAppend(items + [Label(name)], after);
    LabelNamesAppend(items, [Label(name)]);
    assert [Label(name)][..0] == [];
    assert LabelNames([Label(name)]) == LabelNames([]) + [name];
  }

  lemma {:induction false} BlocksHaveLabels(f: Frame, sym: Symbols, blocks: seq<SSABasicBlock>)
    ensures LabelNames(EncBlocks(f, sym, blocks)) == BlockLabels(blocks)
    decreases |blocks|
  {
    hide EncInsts, AllocBlocks, LabelNames;
    if blocks == [] {
      NoLabels([]);
    } else {
      var init, last := blocks[..|blocks| - 1], blocks[|blocks| - 1];
      BlocksHaveLabels(f, sym, init);
      InstsNoLabels(AllocBlocks(f, init), sym, last.instructions);
      OneLabel(EncBlocks(f, sym, init), last.name, EncInsts(AllocBlocks(f, init), sym, last.instructions));
    }
  }

  lemma FunctionHasLabels(arrays: map<string, int>, sym: Symbols, fn: SSAFunction)
    ensures LabelNames(EncFunction(arrays, sym, fn)) == OwnLabels(fn)
  {
    hide LabelNames, EncBlocks, Entered, Prologue, Ops;
    var code, blocks := Ops(Prologue(arrays, fn)), EncBlocks(Entered(arrays, fn), sym, fn.blocks);
    OpsAreOps(Prologue(arrays, fn));
    NoLabels(code);
    BlocksHaveLabels(Entered(arrays, fn), sym, fn.blocks);
    OneLabel([], fn.name, code);
    NoLabels([]);
    assert [] + [Label(fn.name)] == [Label(fn.name)];
    LabelNamesAppend([Label(fn.name)] + code, blocks);
  }

  ghost predicate AllApart(fns: seq<SSAFunction>) {
    && (forall f :: f in fns ==> NoDuplicates(OwnLabels(f)))
    && forall i, j :: 0 <= i < j < |fns| ==> LabelsApart(fns[i], fns[j])
  }

  lemma {:induction false} FunctionsHaveLabels(arrays: map<string, int>, sym: Symbols, fns: seq<SSAFunction>)
    requires AllApart(fns)
    ensures NoDuplicates(LabelNames(EncFunctions(arrays, sym, fns)))
    ensures forall x :: x in LabelNames(EncFunctions(arrays, sym, fns)) ==>
      exists k :: 0 <= k < |fns| && x in OwnLabels(fns[k])
    decreases |fns|
  {
    hide LabelNames, EncFunction, OwnLabels, ArraysAfter;
    if fns == [] {
      NoLabels([]);
    } else {
      var init, last := fns[..|fns| - 1], fns[|fns| - 1];
      FunctionsHaveLabels(arrays, sym, init);
      var a, b := EncFunctions(arrays, sym, init), EncFunction(ArraysAfter(arrays, init), sym, last);
      FunctionHasLabels(ArraysAfter(arrays, init), sym, last);
      LabelNamesAppend(a, b);
      forall x | x in LabelNames(a) ensures x !in OwnLabels(last) {
        var k :| 0 <= k < |init| && x in OwnLabels(init[k]);
        assert LabelsApart(fns[k], fns[|fns| - 1]);
      }
      Joined(LabelNames(a), OwnLabels(last));
    }
  }

  lemma Joined(a: seq<string>, b: seq<string>)
    requires NoDuplicates(a) && NoDuplicates(b) && forall x :: x in a ==> x !in b
    ensures NoDuplicates(a + b)
  {
    forall i, j | 0 <= i < |a| && 0 <= j < |b| ensures a[i] != b[j] { assert a[i] in a && b[j] in b; }
  }

  /** Distinct names are distinct labels in the code. */
  lemma NamesAreDistinct(arrays: map<string, int>, sym: Symbols, program: seq<SSAFunction>)
    requires DistinctNames(program)
    ensures DistinctLabels(EncFunctions(arrays, sym, Ordered(program)))
  {
    hide DistinctNames, Ordered, OwnLabels, NoDuplicates, Precedes, LabelNames, EncFunctions, DistinctLabels;
    var fns := Ordered(program);
    forall f | f in fns ensures NoDuplicates(OwnLabels(f)) {
      OrderedHas(program, f);
      OwnDistinct(program, f);
    }
    forall i: nat, j: nat | i < j < |fns| ensures LabelsApart(fns[i], fns[j]) {
      OrderedSorted(program, i, j);
      PrecedesApart(program, fns[i], fns[j]);
    }
    FunctionsHaveLabels(arrays, sym, fns);
    LabelsDistinct(EncFunctions(arrays, sym, fns));
  }

  lemma OwnDistinct(program: seq<SSAFunction>, f: SSAFunction)
    requires DistinctNames(program) && f in program
    ensures NoDuplicates(OwnLabels(f))
  {
  }

  lemma PrecedesApart(program: seq<SSAFunction>, f: SSAFunction, g: SSAFunction)
    requires DistinctNames(program) && Precedes(program, f, g)
    ensures LabelsApart(f, g)
  {
    hide OwnLabels, DistinctNames;
    var i: nat, j: nat :| i < |program| && j < |program| && program[i] == f && program[j] == g
      && (Rank(f.name) < Rank(g.name) || (Rank(f.name) == Rank(g.name) && i < j));
    NamesDiffer(program, i, j);
  }
}
