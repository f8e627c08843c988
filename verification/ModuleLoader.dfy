/** Module loading, src/loader/ModuleLoader.hpp: a depth-first walk over the imports that merges each
    module's own statements after those of the modules it imports, and reports a circular import when
    it comes to a module it is still visiting. */
module ModuleLoading {

  datatype Stmt = Import(path: string, isCHeader: bool) | Own(id: int)

  /** What reading and parsing a file gives. Missing and empty files look the same. */
  datatype File = Unreadable | LexError | ParseError | Source(stmts: seq<Stmt>)

  /** The files, and how an import path is resolved to the path of a file. */
  datatype Files = Files(contents: map<string, File>, resolve: string -> string)

  function FileAt(fs: Files, path: string): File {
    if path in fs.contents then fs.contents[path] else Unreadable
  }

  function IsModuleImport(s: Stmt): bool {
    s.Import? && !s.isCHeader
  }

  /** What is left of a module when its imports are taken out. */
  function OwnStmts(stmts: seq<Stmt>): seq<Stmt> {
    if stmts == [] then []
    else OwnStmts(stmts[..|stmts| - 1]) + if stmts[|stmts| - 1].Import? then [] else [stmts[|stmts| - 1]]
  }

  /** The files a module imports. */
  function Imported(fs: Files, path: string): set<string> {
    if FileAt(fs, path).Source? then
      set i | 0 <= i < |fs.contents[path].stmts| && IsModuleImport(fs.contents[path].stmts[i]) ::
        fs.resolve(fs.contents[path].stmts[i].path)
    else {}
  }

  // ----- the walk

  /** `order` lists the modules merged so far. */
  datatype State = State(loaded: set<string>, visiting: set<string>, order: seq<string>)

  datatype Error = Circular(path: string) | Unopened(path: string) | BadLex(path: string) | BadSyntax(path: string)

  datatype Outcome = Done(st: State) | Failed(error: Error, st: State)

  function Unvisited(fs: Files, st: State): nat {
    |fs.contents.Keys - st.visiting|
  }

  function Load(fs: Files, path: string, st: State): (r: Outcome)
    ensures r.Done? ==> r.st.visiting == st.visiting
    decreases Unvisited(fs, st), 0
  {
    if path in st.loaded then Done(st)
    else if path in st.visiting then Failed(Circular(path), st)
    else if FileAt(fs, path).Unreadable? then Failed(Unopened(path), st)
    else
      var entered := st.(visiting := st.visiting + {path});
      var file := fs.contents[path];
      if file.LexError? then Failed(BadLex(path), entered)
      else if file.ParseError? then Failed(BadSyntax(path), entered)
      else
        EnterShrinks(fs, path, st);
        var r := LoadImports(fs, file.stmts, entered);
        if r.Failed? then r
        else Done(State(r.st.loaded + {path}, r.st.visiting - {path}, r.st.order + [path]))
  }

  function LoadImports(fs: Files, stmts: seq<Stmt>, st: State): (r: Outcome)
    ensures r.Done? ==> r.st.visiting == st.visiting
    decreases Unvisited(fs, st), 1, |stmts|
  {
    if stmts == [] then Done(st)
    else if !IsModuleImport(stmts[0]) then LoadImports(fs, stmts[1..], st)
    else
      var r := Load(fs, fs.resolve(stmts[0].path), st);
      if r.Failed? then r else LoadImports(fs, stmts[1..], r.st)
  }

  lemma EnterShrinks(fs: Files, path: string, st: State)
    requires path in fs.contents && path !in st.visiting
    ensures Unvisited(fs, st.(visiting := st.visiting + {path})) < Unvisited(fs, st)
  {
    assert fs.contents.Keys - (st.visiting + {path}) == (fs.contents.Keys - st.visiting) - {path};
  }

  /** The merged program: every module's own statements in order. */
  function Merged(fs: Files, order: seq<string>): seq<Stmt> {
    if order == [] then []
    else
      var last := order[|order| - 1];
      Merged(fs, order[..|order| - 1]) + if FileAt(fs, last).Source? then OwnStmts(fs.contents[last].stmts) else []
  }

  // ----- the import graph

  predicate Edge(fs: Files, p: string, q: string) {
    q in Imported(fs, p)
  }

  ghost predicate Walk(fs: Files, w: seq<string>) {
    |w| > 0 && forall i, j :: 0 <= i && j == i + 1 && j < |w| ==> Edge(fs, w[i], w[j])
  }

  /** By any number of imports, also none. */
  ghost predicate Reaches(fs: Files, p: string, q: string) {
    exists w :: Walk(fs, w) && w[0] == p && w[|w| - 1] == q
  }

  /** A module that imports itself in the end. */
  ghost predicate OnCycle(fs: Files, p: string) {
    exists q :: Edge(fs, p, q) && Reaches(fs, q, p)
  }

  lemma ReachesSelf(fs: Files, p: string)
    ensures Reaches(fs, p, p)
  {
    assert Walk(fs, [p]);
  }

  lemma ReachesEdge(fs: Files, p: string, q: string, r: string)
    requires Reaches(fs, p, q) && Edge(fs, q, r)
    ensures Reaches(fs, p, r)
  {
    var w :| Walk(fs, w) && w[0] == p && w[|w| - 1] == q;
    assert Walk(fs, w + [r]);
  }

  lemma ReachesTrans(fs: Files, p: string, q: string, r: string)
    requires Reaches(fs, p, q) && Reaches(fs, q, r)
    ensures Reaches(fs, p, r)
  {
    var v :| Walk(fs, v) && v[0] == p && v[|v| - 1] == q;
    var w :| Walk(fs, w) && w[0] == q && w[|w| - 1] == r;
    var x := v + w[1..];
    forall i, j | 0 <= i && j == i + 1 && j < |x| ensures Edge(fs, x[i], x[j]) {
      if j < |v| {
        assert Edge(fs, v[i], v[j]);
      } else {
        assert x[j] == w[j - |v| + 1];
        assert x[i] == w[j - |v|];
        assert Edge(fs, w[j - |v|], w[j - |v| + 1]);
      }
    }
    assert Walk(fs, x);
  }

  lemma EdgeIs(fs: Files, p: string, k: nat)
    requires FileAt(fs, p).Source? && k < |fs.contents[p].stmts| && IsModuleImport(fs.contents[p].stmts[k])
    ensures Edge(fs, p, fs.resolve(fs.contents[p].stmts[k].path))
  {
  }

  // ----- what a successful walk has done

  ghost predicate Before(order: seq<string>, q: string, p: string) {
    exists i, j :: 0 <= i < j < |order| && order[i] == q && order[j] == p
  }

  /** Modules loaded are those in the order, once each, after everything they import. */
  ghost predicate Topological(fs: Files, st: State) {
    && (forall i, j :: 0 <= i < j < |st.order| ==> st.order[i] != st.order[j])
    && (forall p :: p in st.loaded <==> p in st.order)
    && (forall p :: p in st.order ==> FileAt(fs, p).Source?)
    && forall p, q :: p in st.order && Edge(fs, p, q) ==> Before(st.order, q, p)
  }

  /** Loading adds modules at the end. */
  ghost predicate Grown(fs: Files, from: string, st: State, st': State) {
    && |st.order| <= |st'.order| && st'.order[..|st.order|] == st.order
    && forall p :: p in st'.order && p !in st.order ==> Reaches(fs, from, p)
  }

  lemma GrownTrans(fs: Files, from: string, a: State, b: State, c: State)
    requires Grown(fs, from, a, b) && Grown(fs, from, b, c)
    ensures Grown(fs, from, a, c)
  {
    assert c.order[..|a.order|] == c.order[..|b.order|][..|a.order|];
  }

  lemma Append(fs: Files, st: State, path: string)
    requires Topological(fs, st) && path !in st.loaded && FileAt(fs, path).Source?
    requires forall q :: Edge(fs, path, q) ==> q in st.loaded
    ensures Topological(fs, State(st.loaded + {path}, st.visiting - {path}, st.order + [path]))
  {
    var order := st.order + [path];
    forall p, q | p in order && Edge(fs, p, q) ensures Before(order, q, p) {
      if p in st.order {
        assert Before(st.order, q, p);
        var i, j :| 0 <= i < j < |st.order| && st.order[i] == q && st.order[j] == p;
        assert order[i] == q && order[j] == p;
      } else {
        assert q in st.order;
        var i :| 0 <= i < |st.order| && st.order[i] == q;
        assert order[i] == q && order[|st.order|] == p;
      }
    }
  }

  /** Everything being visited leads here. */
  ghost predicate LeadsTo(fs: Files, visiting: set<string>, path: string) {
    forall v :: v in visiting ==> Reaches(fs, v, path) && exists q :: Edge(fs, v, q) && Reaches(fs, q, path)
  }

  /** What an error says of a module that can be reached. */
  ghost predicate Explained(fs: Files, path: string, error: Error) {
    Reaches(fs, path, error.path)
    && match error
       case Circular(p) => OnCycle(fs, p)
       case Unopened(p) => FileAt(fs, p).Unreadable?
       case BadLex(p) => FileAt(fs, p).LexError?
       case BadSyntax(p) => FileAt(fs, p).ParseError?
  }

  lemma ExplainedFrom(fs: Files, path: string, next: string, error: Error)
    requires Reaches(fs, path, next) && Explained(fs, next, error)
    ensures Explained(fs, path, error)
  {
    hide Reaches;
    ReachesTrans(fs, path, next, error.path);
  }

  lemma VisitedAgain(fs: Files, visiting: set<string>, path: string)
    requires LeadsTo(fs, visiting, path) && path in visiting
    ensures OnCycle(fs, path)
  {
    hide Reaches;
  }

  /** The module and all it imports have been merged, in order; or an error is explained. */
  ghost predicate Walked(fs: Files, path: string, st: State, r: Outcome) {
    match r
    case Done(st') => Topological(fs, st') && path in st'.loaded && Grown(fs, path, st, st')
      && st'.visiting !! st'.loaded
    case Failed(error, _) => Explained(fs, path, error)
  }

  /** The same of the imports from the k-th statement on. */
  ghost predicate WalkedImports(fs: Files, path: string, k: nat, st: State, r: Outcome)
    requires FileAt(fs, path).Source? && k <= |fs.contents[path].stmts|
  {
    match r
    case Done(st') => Topological(fs, st') && LoadedFrom(fs, path, k, st') && Grown(fs, path, st, st')
      && st'.visiting !! st'.loaded
    case Failed(error, _) => Explained(fs, path, error)
  }

  /** The walk from one module. */
  lemma {:induction false} LoadCorrect(fs: Files, path: string, st: State)
    requires Topological(fs, st) && LeadsTo(fs, st.visiting, path) && st.visiting !! st.loaded
    ensures Walked(fs, path, st, Load(fs, path, st))
    decreases Unvisited(fs, st), 0, 1
  {
    hide LoadImports, Imported, Topological, Reaches, OnCycle, LeadsTo, Grown;
    ReachesSelf(fs, path);
    GrownSelf(fs, path, st);
    if path !in st.loaded && path in st.visiting {
      VisitedAgain(fs, st.visiting, path);
    } else if path !in st.loaded && FileAt(fs, path).Source? {
      SourceCorrect(fs, path, st);
    }
  }

  lemma GrownSelf(fs: Files, from: string, st: State)
    ensures Grown(fs, from, st, st)
  {
  }

  lemma LoadSource(fs: Files, path: string, st: State)
    requires path !in st.loaded && path !in st.visiting && FileAt(fs, path).Source?
    ensures var r := LoadImports(fs, fs.contents[path].stmts, st.(visiting := st.visiting + {path}));
      Load(fs, path, st) ==
        if r.Failed? then r else Done(State(r.st.loaded + {path}, r.st.visiting - {path}, r.st.order + [path]))
  {
    hide LoadImports;
  }

  lemma {:induction false} SourceCorrect(fs: Files, path: string, st: State)
    requires Topological(fs, st) && LeadsTo(fs, st.visiting, path) && st.visiting !! st.loaded
    requires path !in st.loaded && path !in st.visiting && FileAt(fs, path).Source?
    ensures Walked(fs, path, st, Load(fs, path, st))
    decreases Unvisited(fs, st), 0, 0
  {
    hide Load, LoadImports, Imported, Topological, Reaches, Explained, Grown, LoadedFrom, LeadsTo;
    LoadSource(fs, path, st);
    var entered := st.(visiting := st.visiting + {path});
    EnterShrinks(fs, path, st);
    EnteredTopological(fs, st, entered);
    assert fs.contents[path].stmts[0..] == fs.contents[path].stmts;
    EnteredLeads(fs, st.visiting, path);
    ImportsCorrect(fs, path, 0, entered);
    var r := LoadImports(fs, fs.contents[path].stmts, entered);
    if r.Done? {
      StillNotLoaded(r.st, path);
      forall q | Edge(fs, path, q) ensures q in r.st.loaded { AllImports(fs, path, q, r.st); }
      Append(fs, r.st, path);
      GrownOne(fs, path, st, entered, r.st);
    }
  }

  lemma EnteredLeads(fs: Files, visiting: set<string>, path: string)
    requires LeadsTo(fs, visiting, path)
    ensures forall v :: v in visiting + {path} ==> Reaches(fs, v, path)
    ensures forall v :: v in visiting + {path} && v != path ==> exists q :: Edge(fs, v, q) && Reaches(fs, q, path)
  {
    hide Reaches, Imported;
    ReachesSelf(fs, path);
  }

  lemma GrownOne(fs: Files, path: string, st: State, entered: State, st': State)
    requires Grown(fs, path, entered, st') && entered.order == st.order
    ensures Grown(fs, path, st, State(st'.loaded + {path}, st'.visiting - {path}, st'.order + [path]))
  {
    hide Reaches;
    ReachesSelf(fs, path);
  }

  lemma EnteredTopological(fs: Files, st: State, entered: State)
    requires Topological(fs, st) && entered.loaded == st.loaded && entered.order == st.order
    ensures Topological(fs, entered)
  {
  }

  lemma StillNotLoaded(st: State, path: string)
    requires st.visiting !! st.loaded && path in st.visiting
    ensures path !in st.loaded
  {
  }

  /** The imports of a module from the k-th statement on have been loaded. */
  ghost predicate LoadedFrom(fs: Files, path: string, k: nat, st: State)
    requires FileAt(fs, path).Source?
  {
    var stmts := fs.contents[path].stmts;
    forall i :: k <= i < |stmts| && IsModuleImport(stmts[i]) ==> fs.resolve(stmts[i].path) in st.loaded
  }

  lemma AllImports(fs: Files, path: string, q: string, st: State)
    requires FileAt(fs, path).Source? && LoadedFrom(fs, path, 0, st) && Edge(fs, path, q)
    ensures q in st.loaded
  {
  }

  lemma LeadsFurther(fs: Files, visiting: set<string>, path: string, next: string)
    requires path in visiting && (forall v :: v in visiting ==> Reaches(fs, v, path)) && Edge(fs, path, next)
    requires forall v :: v in visiting && v != path ==> exists q :: Edge(fs, v, q) && Reaches(fs, q, path)
    ensures LeadsTo(fs, visiting, next)
  {
    hide Reaches, Imported;
    forall v | v in visiting ensures Reaches(fs, v, next) && exists q :: Edge(fs, v, q) && Reaches(fs, q, next) {
      ReachesEdge(fs, v, path, next);
      if v == path {
        ReachesSelf(fs, next);
      } else {
        var q :| Edge(fs, v, q) && Reaches(fs, q, path);
        ReachesEdge(fs, q, path, next);
      }
    }
  }

  lemma {:induction false} ImportsCorrect(fs: Files, path: string, k: nat, st: State)
    requires FileAt(fs, path).Source? && k <= |fs.contents[path].stmts|
    requires Topological(fs, st) && st.visiting !! st.loaded && path in st.visiting
    requires forall v :: v in st.visiting ==> Reaches(fs, v, path)
    requires forall v :: v in st.visiting && v != path ==> exists q :: Edge(fs, v, q) && Reaches(fs, q, path)
    ensures WalkedImports(fs, path, k, st, LoadImports(fs, fs.contents[path].stmts[k..], st))
    decreases Unvisited(fs, st), 1, |fs.contents[path].stmts| - k
  {
    hide Load, Imported, Topological, Reaches, Explained;
    var stmts := fs.contents[path].stmts;
    if k < |stmts| {
      assert stmts[k..][0] == stmts[k] && stmts[k..][1..] == stmts[k + 1..];
      if !IsModuleImport(stmts[k]) {
        ImportsCorrect(fs, path, k + 1, st);
      } else {
        var next := fs.resolve(stmts[k].path);
        EdgeIs(fs, path, k);
        LeadsFurther(fs, st.visiting, path, next);
        LoadCorrect(fs, next, st);
        ReachesSelf(fs, path);
        ReachesEdge(fs, path, path, next);
        var r := Load(fs, next, st);
        if r.Done? {
          GrownFrom(fs, path, next, st, r.st);
          ImportsCorrect(fs, path, k + 1, r.st);
          var s := LoadImports(fs, stmts[k + 1..], r.st);
          if s.Done? {
            GrownTrans(fs, path, st, r.st, s.st);
            StaysLoaded(fs, path, next, r.st, s.st);
          }
        } else {
          ExplainedFrom(fs, path, next, r.error);
        }
      }
    } else {
      assert stmts[k..] == [];
    }
  }

  lemma GrownFrom(fs: Files, path: string, next: string, st: State, st': State)
    requires Reaches(fs, path, next) && Grown(fs, next, st, st')
    ensures Grown(fs, path, st, st')
  {
    hide Reaches;
    forall p | p in st'.order && p !in st.order ensures Reaches(fs, path, p) { ReachesTrans(fs, path, next, p); }
  }

  lemma StaysLoaded(fs: Files, path: string, p: string, st: State, st': State)
    requires Topological(fs, st) && Topological(fs, st') && Grown(fs, path, st, st') && p in st.loaded
    ensures p in st'.loaded
  {
    var i :| 0 <= i < |st.order| && st.order[i] == p;
    assert st'.order[..|st.order|][i] == p;
  }

  // ----- the whole program

  const START: State := State({}, {}, [])

  /** On success the modules merged are exactly those reachable from the root, each once and after every
      module it imports. */
  lemma LoadingIsTopological(fs: Files, root: string)
    requires Load(fs, root, START).Done?
    ensures var st := Load(fs, root, START).st;
      Topological(fs, st) && forall p :: p in st.order <==> Reaches(fs, root, p)
  {
    hide Load, Imported;
    NothingLoaded(fs);
    LoadCorrect(fs, root, START);
    var st := Load(fs, root, START).st;
    forall p ensures p in st.order <==> Reaches(fs, root, p) {
      if Reaches(fs, root, p) {
        var w :| Walk(fs, w) && w[0] == root && w[|w| - 1] == p;
        WalkLoaded(fs, st, w);
      }
    }
  }

  lemma NothingLoaded(fs: Files)
    ensures Topological(fs, START)
  {
  }

  lemma {:induction false} WalkLoaded(fs: Files, st: State, w: seq<string>)
    requires Topological(fs, st) && Walk(fs, w) && w[0] in st.order
    ensures w[|w| - 1] in st.order
    decreases |w|
  {
    hide Imported;
    if |w| > 1 {
      var v := w[..|w| - 1];
      WalkLoaded(fs, st, v);
      assert Edge(fs, w[|w| - 2], w[|w| - 1]);
      assert Before(st.order, w[|w| - 1], w[|w| - 2]);
    }
  }

  /** The place of a module in the order. */
  function Place(order: seq<string>, p: string): nat
    requires p in order
  {
    if order[0] == p then 0 else 1 + Place(order[1..], p)
  }

  lemma {:induction false} PlaceIs(order: seq<string>, i: nat)
    requires i < |order| && forall a, b :: 0 <= a < b < |order| ==> order[a] != order[b]
    ensures Place(order, order[i]) == i
    decreases i
  {
    if i > 0 {
      assert order[1..][i - 1] == order[i];
      PlaceIs(order[1..], i - 1);
    }
  }

  lemma {:induction false} WalkGoesBack(fs: Files, st: State, w: seq<string>)
    requires Topological(fs, st) && Walk(fs, w) && w[0] in st.order
    ensures w[|w| - 1] in st.order && Place(st.order, w[|w| - 1]) <= Place(st.order, w[0])
    decreases |w|
  {
    hide Imported, Place;
    if |w| > 1 {
      var v := w[..|w| - 1];
      WalkGoesBack(fs, st, v);
      assert Edge(fs, w[|w| - 2], w[|w| - 1]);
      EdgeGoesBack(fs, st, w[|w| - 2], w[|w| - 1]);
    }
  }

  lemma EdgeGoesBack(fs: Files, st: State, p: string, q: string)
    requires Topological(fs, st) && p in st.order && Edge(fs, p, q)
    ensures q in st.order && Place(st.order, q) < Place(st.order, p)
  {
    hide Imported, Place;
    assert Before(st.order, q, p);
    var i, j :| 0 <= i < j < |st.order| && st.order[i] == q && st.order[j] == p;
    PlaceIs(st.order, i);
    PlaceIs(st.order, j);
  }

  lemma NoCycleLoaded(fs: Files, st: State, p: string)
    requires Topological(fs, st) && p in st.order
    ensures !OnCycle(fs, p)
  {
    hide Imported, Place;
    forall q | Edge(fs, p, q) ensures !Reaches(fs, q, p) {
      EdgeGoesBack(fs, st, p, q);
      forall w | Walk(fs, w) && w[0] == q ensures w[|w| - 1] != p { WalkGoesBack(fs, st, w); }
    }
  }

  ghost predicate AllGood(fs: Files, root: string) {
    forall p :: Reaches(fs, root, p) ==> FileAt(fs, p).Source?
  }

  /** With every file present and parsing, loading fails exactly when a cycle of imports is reachable,
      and then with the circular-import error. */
  lemma CircularExactly(fs: Files, root: string)
    requires AllGood(fs, root)
    ensures var r := Load(fs, root, START);
      (r.Failed? <==> exists p :: Reaches(fs, root, p) && OnCycle(fs, p)) && (r.Failed? ==> r.error.Circular?)
  {
    hide Load, Imported, OnCycle, Reaches;
    NothingLoaded(fs);
    LoadCorrect(fs, root, START);
    var r := Load(fs, root, START);
    if r.Done? {
      LoadingIsTopological(fs, root);
      forall p | Reaches(fs, root, p) ensures !OnCycle(fs, p) { NoCycleLoaded(fs, r.st, p); }
    }
  }

  // ----- the loader object

  class ModuleLoader {
    var loadedModules: set<string>
    var visitingModules: set<string>
    var rootStmts: seq<Stmt>
    ghost var order: seq<string>

    constructor ()
      ensures Now() == START && rootStmts == []
    {
      loadedModules, visitingModules, rootStmts, order := {}, {}, [], [];
    }

    ghost function Now(): State
      reads this
    {
      State(loadedModules, visitingModules, order)
    }

    ghost predicate Valid(fs: Files)
      reads this
    {
      rootStmts == Merged(fs, order)
    }

    /** Loads a module and what it imports; the error of the first import that fails is passed on. */
    method LoadAndMerge(fs: Files, path: string) returns (error: seq<Error>)
      requires Valid(fs)
      modifies this
      ensures Valid(fs)
      ensures var r := Load(fs, fs.resolve(path), old(Now()));
        Now() == r.st && error == if r.Failed? then [r.error] else []
      decreases Unvisited(fs, Now())
    {
      hide LoadImports, Merged, Imported;
      var actualPath := fs.resolve(path);
      if actualPath in loadedModules { return []; }
      if actualPath in visitingModules { return [Circular(actualPath)]; }
      if actualPath !in fs.contents || fs.contents[actualPath].Unreadable? { return [Unopened(actualPath)]; }
      EnterShrinks(fs, actualPath, Now());
      visitingModules := visitingModules + {actualPath};
      ghost var entered := Now();
      var file := fs.contents[actualPath];
      if file.LexError? { return [BadLex(actualPath)]; }
      if file.ParseError? { return [BadSyntax(actualPath)]; }
      var stmts, it := file.stmts, 0;
      ghost var k := 0;
      assert file.stmts[0..] == file.stmts;
      NothingOwn();
      while it < |stmts|
        invariant 0 <= it <= |stmts| && 0 <= k <= |file.stmts| && Valid(fs) && visitingModules == entered.visiting
        invariant stmts[..it] == OwnStmts(file.stmts[..k]) && stmts[it..] == file.stmts[k..]
        invariant LoadImports(fs, file.stmts, entered) == LoadImports(fs, file.stmts[k..], Now())
        decreases |stmts| - it
      {
        var s := stmts[it];
        assert s == stmts[it..][0] == file.stmts[k];
        NextStmt(fs, file.stmts, k, Now());
        OwnNext(file.stmts, k);
        assert stmts[it..][1..] == file.stmts[k + 1..];
        if s.Import? {
          if !s.isCHeader {
            error := LoadAndMerge(fs, s.path);
            if error != [] { return error; }
          }
          stmts := stmts[..it] + stmts[it + 1..];
        } else {
          assert stmts[..it + 1] == stmts[..it] + [s];
          it := it + 1;
        }
        k := k + 1;
      }
      assert file.stmts[..k] == file.stmts && file.stmts[k..] == [] && stmts[..it] == stmts;
      NoMoreImports(fs, Now());
      rootStmts := rootStmts + stmts;
      MergedNext(fs, order, actualPath);
      order := order + [actualPath];
      visitingModules := visitingModules - {actualPath};
      loadedModules := loadedModules + {actualPath};
      error := [];
    }
  }

  lemma NothingOwn()
    ensures OwnStmts([]) == []
  {
  }

  lemma OwnNext(stmts: seq<Stmt>, k: nat)
    requires k < |stmts|
    ensures OwnStmts(stmts[..k + 1]) == OwnStmts(stmts[..k]) + if stmts[k].Import? then [] else [stmts[k]]
  {
    assert stmts[..k + 1][..k] == stmts[..k];
  }

  lemma NextStmt(fs: Files, stmts: seq<Stmt>, k: nat, st: State)
    requires k < |stmts|
    ensures LoadImports(fs, stmts[k..], st) ==
      if !IsModuleImport(stmts[k]) then LoadImports(fs, stmts[k + 1..], st)
      else
        var r := Load(fs, fs.resolve(stmts[k].path), st);
        if r.Failed? then r else LoadImports(fs, stmts[k + 1..], r.st)
  {
    hide Load;
    assert stmts[k..][1..] == stmts[k + 1..];
  }

  lemma NoMoreImports(fs: Files, st: State)
    ensures LoadImports(fs, [], st) == Done(st)
  {
  }

  lemma MergedNext(fs: Files, order: seq<string>, path: string)
    requires FileAt(fs, path).Source?
    ensures Merged(fs, order + [path]) == Merged(fs, order) + OwnStmts(fs.contents[path].stmts)
  {
    assert (order + [path])[..|order|] == order;
  }
}
