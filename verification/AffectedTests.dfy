/** Selecting the tests a change affects (tools/affected_tests.py).

    The module name of each owned file and the module names its source refers to are given; for a file that does
    not parse there are none. */
module AffectedTests {
  import opened Options
  import opened Ordering

  type Path = Key
  type Name = Key
  type References = map<Path, Option<seq<Name>>>

  datatype Graph = Graph(
    modules: map<Path, Name>, index: map<Name, Path>, dependents: map<Path, set<Path>>, unclear: set<Path>)

  datatype Selection = WholeSuite | Tests(paths: seq<Path>)

  // ---------------------------------------------------------------- file names

  const SLASH: int := '/' as int
  const DOT: int := '.' as int

  function FileName(p: Path): Path
    decreases |p|
  {
    if SLASH !in p then p else FileName(AfterFirst(SLASH, p))
  }

  function AfterFirst(c: int, p: Path): (r: Path)
    requires c in p
    ensures |r| < |p|
  {
    if p[0] == c then p[1..] else AfterFirst(c, p[1..])
  }

  predicate EndsIn(name: Path, suffix: Path) {
    |name| >= |suffix| && name[|name| - |suffix|..] == suffix
  }

  /** The last dot starts the suffix, unless only dots come before it. */
  predicate HasSuffix(p: Path, suffix: Path) {
    var name := FileName(p);
    EndsIn(name, suffix) && exists i :: 0 <= i < |name| - |suffix| && name[i] != DOT
  }

  predicate IsPython(p: Path) {
    HasSuffix(p, Points(".py")) || HasSuffix(p, Points(".pyi"))
  }

  predicate IsTest(p: Path) {
    HasSuffix(p, Points(".py")) && Points("test_") <= FileName(p)
  }

  predicate MustWiden(g: Graph, p: Path) {
    !IsPython(p) || FileName(p) == Points("conftest.py") || p !in g.modules || p in g.unclear
  }

  // ---------------------------------------------------------------- who imports whom

  /** The file is the only one with this module name. */
  ghost predicate Sole(modules: map<Path, Name>, name: Name, p: Path) {
    p in modules && modules[p] == name && forall q :: q in modules && modules[q] == name ==> q == p
  }

  ghost predicate Ambiguous(modules: map<Path, Name>, p: Path) {
    p in modules && exists q :: q in modules && q != p && modules[q] == modules[p]
  }

  ghost predicate Mentions(modules: map<Path, Name>, references: References, p: Path, q: Path) {
    && p in modules && p in references && references[p].Some?
    && q in modules && q != p && modules[q] in references[p].value
  }

  /** The dotted name of a package above a module. */
  predicate IsAbove(package: Name, name: Name) {
    package != [] && |package| < |name| && package <= name && name[|package|] == DOT
  }

  /** Importing what `p` refers to runs `q`: its module is named, or is a package above one that is named. */
  ghost predicate Runs(modules: map<Path, Name>, references: References, p: Path, q: Path) {
    && p in modules && p in references && references[p].Some? && q in modules && q != p
    && exists n :: n in references[p].value && (n == modules[q] || IsAbove(modules[q], n))
  }

  lemma MentionRuns(modules: map<Path, Name>, references: References, p: Path, q: Path)
    requires Mentions(modules, references, p, q)
    ensures Runs(modules, references, p, q)
  {
    assert modules[q] in references[p].value;
  }

  /** The import resolves: `p` refers to the module name of `q`, and `q` alone carries it. */
  ghost predicate Imports(modules: map<Path, Name>, references: References, p: Path, q: Path) {
    Mentions(modules, references, p, q) && !Ambiguous(modules, q)
  }

  ghost predicate Distinct(s: seq<Path>) {
    forall i, j :: 0 <= i < j < |s| ==> s[i] != s[j]
  }

  /** `_invert_modules`, for every order in which the files are visited. */
  method InvertModules(modules: map<Path, Name>) returns (index: map<Name, Path>, ambiguous: set<Path>)
    ensures forall name, p :: name in index && index[name] == p <==> Sole(modules, name, p)
    ensures forall p :: p in ambiguous <==> Ambiguous(modules, p)
  {
    var byModule: map<Name, seq<Path>> := map[];
    var todo := modules.Keys;
    while todo != {}
      invariant todo <= modules.Keys
      invariant forall name :: name in byModule ==> byModule[name] != [] && Distinct(byModule[name])
      invariant forall name, p ::
          name in byModule && p in byModule[name] ==> p in modules && p !in todo && modules[p] == name
      invariant forall p :: p in modules && p !in todo ==> modules[p] in byModule && p in byModule[modules[p]]
    {
      var path :| path in todo;
      todo := todo - {path};
      var name := modules[path];
      byModule := byModule[name := (if name in byModule then byModule[name] else []) + [path]];
    }
    index := map name | name in byModule && |byModule[name]| == 1 :: byModule[name][0];
    ambiguous := set name, p | name in byModule && |byModule[name]| > 1 && p in byModule[name] :: p;
    forall name, p ensures name in index && index[name] == p <==> Sole(modules, name, p) {
      if name in byModule {
        SoleByCount(modules, name, byModule[name], p);
      }
    }
    forall p ensures p in ambiguous <==> Ambiguous(modules, p) {
      if p in modules {
        SoleByCount(modules, modules[p], byModule[modules[p]], p);
      }
    }
  }

  lemma SoleByCount(modules: map<Path, Name>, name: Name, paths: seq<Path>, p: Path)
    requires paths != [] && Distinct(paths)
    requires forall q :: q in paths <==> q in modules && modules[q] == name
    ensures Sole(modules, name, p) <==> |paths| == 1 && p == paths[0]
    ensures p in paths ==> (Ambiguous(modules, p) <==> |paths| > 1)
  {
    assert paths[0] in paths;
    if |paths| > 1 {
      assert paths[1] in paths && paths[0] != paths[1];
    }
  }

  /** The references of one file, added to the inverted edges. */
  method AddEdges(dependents: map<Path, set<Path>>, index: map<Name, Path>, path: Path, names: seq<Name>)
    returns (r: map<Path, set<Path>>)
    requires forall name :: name in index ==> index[name] in dependents
    ensures r.Keys == dependents.Keys
    ensures forall q, p ::
        q in r ==> (p in r[q] <==> p in dependents[q] || (p == path && RefersTo(index, path, names, |names|, q)))
  {
    r := dependents;
    var i := 0;
    while i < |names|
      invariant 0 <= i <= |names|
      invariant r.Keys == dependents.Keys
      invariant forall q, p ::
          q in r ==> (p in r[q] <==> p in dependents[q] || (p == path && RefersTo(index, path, names, i, q)))
    {
      if names[i] in index && index[names[i]] != path {
        var target := index[names[i]];
        r := r[target := r[target] + {path}];
      }
      i := i + 1;
    }
  }

  ghost predicate RefersTo(index: map<Name, Path>, path: Path, names: seq<Name>, n: nat, q: Path)
    requires n <= |names|
  {
    q != path && exists j :: 0 <= j < n && names[j] in index && index[names[j]] == q
  }

  /** The inverted edges are the resolved imports, and the unclear files are those that share their module name
      or do not parse. */
  ghost predicate Describes(g: Graph, modules: map<Path, Name>, references: References) {
    && g.modules == modules && g.dependents.Keys == modules.Keys
    && (forall q, p :: q in modules ==> (p in g.dependents[q] <==> Imports(modules, references, p, q)))
    && (forall p ::
        p in g.unclear <==> Ambiguous(modules, p) || (p in modules && p in references && references[p] == None))
  }

  lemma RefersIsImports(modules: map<Path, Name>, references: References, index: map<Name, Path>, p: Path, q: Path)
    requires forall name, f :: name in index && index[name] == f <==> Sole(modules, name, f)
    requires p in modules && p in references && references[p].Some? && q in modules
    ensures RefersTo(index, p, references[p].value, |references[p].value|, q) <==> Imports(modules, references, p, q)
  {
    var names := references[p].value;
    assert Sole(modules, modules[q], q) <==> !Ambiguous(modules, q);
    if RefersTo(index, p, names, |names|, q) {
      var j :| 0 <= j < |names| && names[j] in index && index[names[j]] == q;
      assert Sole(modules, names[j], q);
    }
    if Imports(modules, references, p, q) {
      var j :| 0 <= j < |names| && names[j] == modules[q];
      assert names[j] in index && index[names[j]] == q;
    }
  }

  /** `build_graph` from the module names on. */
  method BuildGraph(modules: map<Path, Name>, references: References) returns (g: Graph)
    requires modules.Keys <= references.Keys
    ensures Describes(g, modules, references)
  {
    var index, ambiguous := InvertModules(modules);
    var dependents: map<Path, set<Path>> := map p | p in modules :: {};
    var unparsed: set<Path> := {};
    var todo := modules.Keys;
    while todo != {}
      invariant todo <= modules.Keys && dependents.Keys == modules.Keys
      invariant forall q, p ::
          q in modules ==> (p in dependents[q] <==> p !in todo && Imports(modules, references, p, q))
      invariant forall p :: p in unparsed <==> p in modules && p !in todo && references[p] == None
    {
      var path :| path in todo;
      todo := todo - {path};
      if references[path] == None {
        unparsed := unparsed + {path};
        continue;
      }
      forall name | name in index ensures index[name] in dependents {
        assert Sole(modules, name, index[name]);
      }
      forall q | q in modules
        ensures RefersTo(index, path, references[path].value, |references[path].value|, q)
            <==> Imports(modules, references, path, q)
      {
        RefersIsImports(modules, references, index, path, q);
      }
      dependents := AddEdges(dependents, index, path, references[path].value);
    }
    g := Graph(modules, index, dependents, ambiguous + unparsed);
  }

  // ---------------------------------------------------------------- reachability

  type Relation = (Path, Path) -> bool

  /** Each file of the walk is one step from the file before it. */
  ghost predicate Walk(step: Relation, w: seq<Path>) {
    w != [] && forall i :: 0 < i < |w| ==> step(w[i - 1], w[i])
  }

  ghost predicate Reaches(step: Relation, from: seq<Path>, p: Path) {
    exists w :: Walk(step, w) && w[0] in from && w[|w| - 1] == p
  }

  lemma ReachesSelf(step: Relation, from: seq<Path>, p: Path)
    requires p in from
    ensures Reaches(step, from, p)
  {
    assert Walk(step, [p]) && [p][0] in from && [p][|[p]| - 1] == p;
  }

  lemma ReachesStep(step: Relation, from: seq<Path>, q: Path, p: Path)
    requires Reaches(step, from, q) && step(q, p)
    ensures Reaches(step, from, p)
  {
    var w :| Walk(step, w) && w[0] in from && w[|w| - 1] == q;
    var longer := w + [p];
    assert Walk(step, longer) && longer[0] in from && longer[|longer| - 1] == p;
  }

  /** A set that holds the start and is closed under steps holds everything reached. */
  lemma {:induction false} WalkStays(step: Relation, from: seq<Path>, within: iset<Path>, w: seq<Path>)
    requires forall c :: c in from ==> c in within
    requires forall q, p :: q in within && step(q, p) ==> p in within
    requires Walk(step, w) && w[0] in from
    ensures w[|w| - 1] in within
  {
    if |w| > 1 {
      WalkStays(step, from, within, w[..|w| - 1]);
    }
  }

  lemma ReachStays(step: Relation, from: seq<Path>, within: iset<Path>, p: Path)
    requires forall c :: c in from ==> c in within
    requires forall q, r :: q in within && step(q, r) ==> r in within
    requires Reaches(step, from, p)
    ensures p in within
  {
    var w :| Walk(step, w) && w[0] in from && w[|w| - 1] == p;
    WalkStays(step, from, within, w);
  }

  /** What is reached is a start or one step from something. */
  lemma LastStep(step: Relation, from: seq<Path>, p: Path)
    requires Reaches(step, from, p)
    ensures p in from || exists q :: step(q, p)
  {
    var w :| Walk(step, w) && w[0] in from && w[|w| - 1] == p;
    assert |w| > 1 ==> step(w[|w| - 2], w[|w| - 1]);
  }

  function Dependents(dependents: map<Path, set<Path>>): Relation {
    (q: Path, p: Path) => q in dependents && p in dependents[q]
  }

  ghost function Everything(dependents: map<Path, set<Path>>): set<Path> {
    set q, p | q in dependents && p in dependents[q] :: p
  }

  ghost function Members(s: seq<Path>): set<Path> {
    set p | p in s
  }

  /** Pops one file and adds its dependents that are new; returns the reached files and the rest of the queue. */
  method Expand(dependents: map<Path, set<Path>>, reached: set<Path>, queue: seq<Path>)
    returns (r: set<Path>, rest: seq<Path>)
    requires queue != []
    ensures r == reached + (if queue[0] in dependents then dependents[queue[0]] else {})
    ensures forall p :: p in rest <==> p in queue[1..] || (p in r && p !in reached)
    ensures r == reached ==> rest == queue[1..]
  {
    var todo := if queue[0] in dependents then dependents[queue[0]] else {};
    r, rest := reached, queue[1..];
    ghost var all := todo;
    while todo != {}
      invariant todo <= all && r == reached + (all - todo)
      invariant forall p :: p in rest <==> p in queue[1..] || (p in r && p !in reached)
      invariant r == reached ==> rest == queue[1..]
    {
      var dependent :| dependent in todo;
      todo := todo - {dependent};
      if dependent !in r {
        r := r + {dependent};
        rest := rest + [dependent];
      }
    }
  }

  /** Everything reached is reachable, and only files still queued may have dependents not yet reached. */
  ghost predicate Explored(dependents: map<Path, set<Path>>, changed: seq<Path>, reached: set<Path>, queue: seq<Path>) {
    && (forall p :: p in changed || p in queue ==> p in reached)
    && (forall p :: p in reached ==> Reaches(Dependents(dependents), changed, p))
    && (forall q :: q in reached && q !in queue && q in dependents ==> dependents[q] <= reached)
  }

  lemma StartExplored(dependents: map<Path, set<Path>>, changed: seq<Path>, reached: set<Path>)
    requires forall p :: p in reached <==> p in changed
    ensures Explored(dependents, changed, reached, changed)
  {
    forall p | p in reached ensures Reaches(Dependents(dependents), changed, p) {
      ReachesSelf(Dependents(dependents), changed, p);
    }
  }

  lemma ExpandWithin(
    dependents: map<Path, set<Path>>, reached: set<Path>, queue: seq<Path>, next: set<Path>, limit: set<Path>)
    requires queue != [] && reached <= limit && Everything(dependents) <= limit
    requires next == reached + (if queue[0] in dependents then dependents[queue[0]] else {})
    ensures reached <= next <= limit
  {
  }

  lemma ExpandExplored(dependents: map<Path, set<Path>>, changed: seq<Path>, reached: set<Path>, queue: seq<Path>,
                       next: set<Path>, rest: seq<Path>)
    requires Explored(dependents, changed, reached, queue) && queue != []
    requires next == reached + (if queue[0] in dependents then dependents[queue[0]] else {})
    requires forall p :: p in rest <==> p in queue[1..] || (p in next && p !in reached)
    ensures Explored(dependents, changed, next, rest)
  {
    forall p | p in next ensures Reaches(Dependents(dependents), changed, p) {
      if p !in reached {
        ReachesStep(Dependents(dependents), changed, queue[0], p);
      }
    }
    forall q | q in next && q !in rest && q in dependents ensures dependents[q] <= next {
      assert q in reached;
      if q in queue {
        assert q == queue[0];
      }
    }
  }

  lemma ExploredIsReached(dependents: map<Path, set<Path>>, changed: seq<Path>, reached: set<Path>)
    requires Explored(dependents, changed, reached, [])
    ensures forall p :: p in reached <==> Reaches(Dependents(dependents), changed, p)
  {
    forall p | Reaches(Dependents(dependents), changed, p) ensures p in reached {
      ReachStays(Dependents(dependents), changed, (iset q | q in reached), p);
    }
  }

  /** `_closure`: whatever order the dependents are visited in, exactly what is reachable from the changed files. */
  method Closure(dependents: map<Path, set<Path>>, changed: seq<Path>) returns (reached: set<Path>)
    ensures forall p :: p in reached <==> Reaches(Dependents(dependents), changed, p)
  {
    ghost var limit := Everything(dependents) + Members(changed);
    reached := set p | p in changed;
    var queue := changed;
    StartExplored(dependents, changed, reached);
    while queue != []
      invariant Explored(dependents, changed, reached, queue)
      invariant reached <= limit
      decreases |limit - reached|, |queue|
    {
      var next, rest := Expand(dependents, reached, queue);
      ExpandExplored(dependents, changed, reached, queue, next, rest);
      ExpandWithin(dependents, reached, queue, next, limit);
      LimitShrinks(limit, reached, next);
      reached, queue := next, rest;
    }
    ExploredIsReached(dependents, changed, reached);
  }

  lemma LimitShrinks(limit: set<Path>, before: set<Path>, now: set<Path>)
    requires before <= now <= limit
    ensures |limit - now| < |limit - before| || now == before
  {
    if now != before {
      var extra :| extra in now && extra !in before;
      SmallerSet(limit - now, limit - before, extra);
    }
  }

  lemma SmallerSet(a: set<Path>, b: set<Path>, extra: Path)
    requires a <= b && extra in b && extra !in a
    ensures |a| < |b|
  {
    assert b == (b - a) + a;
    assert |b - a| + |a| == |b|;
    assert extra in b - a;
  }

  // ---------------------------------------------------------------- selection

  function PathKey(p: Path): Key { p }

  /** The selected tests in order, for a set of paths. */
  method SortedTests(paths: set<Path>) returns (r: seq<Path>)
    ensures Increasing(PathKey, r)
    ensures forall p :: p in r <==> p in paths && IsTest(p)
  {
    var found: seq<Path> := [];
    var todo := paths;
    while todo != {}
      invariant todo <= paths
      invariant DistinctKeys(PathKey, found)
      invariant forall p :: p in found <==> p in paths && p !in todo && IsTest(p)
    {
      var path :| path in todo;
      todo := todo - {path};
      if IsTest(path) {
        found := found + [path];
      }
    }
    DistinctSorted(PathKey, found);
    r := Sort(PathKey, found);
    forall p ensures p in r <==> p in paths && IsTest(p) {
      SortMember(PathKey, found, p);
    }
  }

  /** What a selection of the graph must be. */
  ghost predicate IsSelection(g: Graph, changed: seq<Path>, s: Selection) {
    if changed == [] then s == Tests([])
    else if exists i :: 0 <= i < |changed| && MustWiden(g, changed[i]) then s == WholeSuite
    else s.Tests? && Increasing(PathKey, s.paths)
         && forall p :: p in s.paths <==> IsTest(p) && Reaches(Dependents(g.dependents), changed, p)
  }

  method Select(g: Graph, changed: seq<Path>) returns (s: Selection)
    ensures IsSelection(g, changed, s)
  {
    if changed == [] {
      return Tests([]);
    }
    if exists i :: 0 <= i < |changed| && MustWiden(g, changed[i]) {
      return WholeSuite;
    }
    var reached := Closure(g.dependents, changed);
    var paths := SortedTests(reached);
    s := Tests(paths);
  }

  /** The selection is a function of the set of changed paths: neither their order, nor repeats, nor the order in
      which the closure visits files can change it. */
  lemma SelectionUnique(g: Graph, changed: seq<Path>, same: seq<Path>, s: Selection, t: Selection)
    requires forall p :: p in changed <==> p in same
    requires IsSelection(g, changed, s) && IsSelection(g, same, t)
    ensures s == t
  {
    WideningShared(g, changed, same);
    WideningShared(g, same, changed);
    assert changed == [] <==> same == [] by {
      assert changed != [] ==> changed[0] in same;
      assert same != [] ==> same[0] in changed;
    }
    if s.Tests? && changed != [] {
      forall p ensures p in s.paths <==> p in t.paths {
        ReachesMore(Dependents(g.dependents), changed, same, p);
        ReachesMore(Dependents(g.dependents), same, changed, p);
      }
      IncreasingUnique(PathKey, s.paths, t.paths);
    }
  }

  lemma WideningShared(g: Graph, changed: seq<Path>, more: seq<Path>)
    requires forall p :: p in changed ==> p in more
    ensures (exists i :: 0 <= i < |changed| && MustWiden(g, changed[i]))
            ==> (exists i :: 0 <= i < |more| && MustWiden(g, more[i]))
  {
    if i :| 0 <= i < |changed| && MustWiden(g, changed[i]) {
      assert changed[i] in more;
      var j :| 0 <= j < |more| && more[j] == changed[i];
      assert MustWiden(g, more[j]);
    }
  }

  lemma ReachesMore(step: Relation, from: seq<Path>, more: seq<Path>, p: Path)
    requires forall c :: c in from ==> c in more
    ensures Reaches(step, from, p) ==> Reaches(step, more, p)
  {
    if Reaches(step, from, p) {
      var w :| Walk(step, w) && w[0] in from && w[|w| - 1] == p;
      assert w[0] in more;
    }
  }

  /** More changes never select fewer tests. */
  lemma SelectionMonotone(g: Graph, changed: seq<Path>, more: seq<Path>, s: Selection, t: Selection, p: Path)
    requires forall c :: c in changed ==> c in more
    requires IsSelection(g, changed, s) && IsSelection(g, more, t)
    ensures s == WholeSuite ==> t == WholeSuite
    ensures s.Tests? && p in s.paths ==> t == WholeSuite || p in t.paths
  {
    assert more == [] ==> changed == [] by {
      assert changed != [] ==> changed[0] in more;
    }
    if s == WholeSuite {
      WideningShared(g, changed, more);
    } else {
      ReachesMore(Dependents(g.dependents), changed, more, p);
    }
  }

  // ---------------------------------------------------------------- what the edges mean

  /** `p` has a resolved import of `q`. */
  ghost function Resolved(modules: map<Path, Name>, references: References): Relation {
    (q: Path, p: Path) => Imports(modules, references, p, q)
  }

  /** What `p` refers to runs `q`, whether or not the import resolves. */
  ghost function Running(modules: map<Path, Name>, references: References): Relation {
    (q: Path, p: Path) => Runs(modules, references, p, q)
  }

  lemma ReachesSame(a: Relation, b: Relation, from: seq<Path>, p: Path)
    requires forall q, r :: a(q, r) ==> b(q, r)
    ensures Reaches(a, from, p) ==> Reaches(b, from, p)
  {
    if Reaches(a, from, p) {
      var w :| Walk(a, w) && w[0] in from && w[|w| - 1] == p;
      assert Walk(b, w);
    }
  }

  /** When no changed path widens, the selected tests are exactly the test files that reach a changed file along
      resolved imports. */
  lemma SelectionIsReachability(
    g: Graph, modules: map<Path, Name>, references: References, changed: seq<Path>, s: Selection, p: Path)
    requires modules.Keys <= references.Keys && Describes(g, modules, references)
    requires IsSelection(g, changed, s) && s.Tests?
    ensures p in s.paths <==> IsTest(p) && Reaches(Resolved(modules, references), changed, p)
  {
    ReachesSame(Dependents(g.dependents), Resolved(modules, references), changed, p);
    ReachesSame(Resolved(modules, references), Dependents(g.dependents), changed, p);
    if changed == [] {
      assert !Reaches(Resolved(modules, references), changed, p);
    }
  }

  // ---------------------------------------------------------------- what the edges miss

  ghost predicate Unparsed(modules: map<Path, Name>, references: References, p: Path) {
    p in modules && p in references && references[p] == None
  }

  /** What the files refer to: the names found where a file parses, anything where it does not. */
  ghost predicate Completes(references: References, full: References) {
    && full.Keys == references.Keys
    && forall p :: p in references ==> full[p].Some? && (references[p].Some? ==> full[p] == references[p])
  }

  /** `p` may run `q`: it does, or it does not parse. */
  ghost function Possible(modules: map<Path, Name>, references: References): Relation {
    (q: Path, p: Path) =>
      Runs(modules, references, p, q) || (Unparsed(modules, references, p) && q in modules && q != p)
  }

  lemma {:induction false} Listing(names: set<Key>) returns (listed: seq<Key>)
    ensures forall n :: n in listed <==> n in names
    decreases |names|
  {
    listed := [];
    if names != {} {
      var first :| first in names;
      var rest := Listing(names - {first});
      listed := [first] + rest;
    }
  }

  /** One completion realises every possible reference at once. */
  lemma FullestCompletion(modules: map<Path, Name>, references: References) returns (full: References)
    requires modules.Keys <= references.Keys
    ensures Completes(references, full)
    ensures forall q, p :: Possible(modules, references)(q, p) ==> Running(modules, full)(q, p)
  {
    var names := Listing(modules.Values);
    full := map p | p in references :: if references[p] == None then Some(names) else references[p];
    forall q, p | Possible(modules, references)(q, p)
      ensures Running(modules, full)(q, p)
    {
      if Unparsed(modules, references, p) {
        assert modules[q] in modules.Values;
        assert modules[q] in full[p].value;
      } else {
        assert full[p] == references[p];
      }
    }
  }

  lemma CompletionPossible(modules: map<Path, Name>, references: References, full: References, q: Path, p: Path)
    requires modules.Keys <= references.Keys && Completes(references, full) && Running(modules, full)(q, p)
    ensures Possible(modules, references)(q, p)
  {
  }

  /** A file reaches a change in some completion exactly when it possibly does. */
  lemma PossibleExactly(modules: map<Path, Name>, references: References, changed: seq<Path>, p: Path)
    requires modules.Keys <= references.Keys
    ensures Reaches(Possible(modules, references), changed, p)
            <==> exists full :: Completes(references, full) && Reaches(Running(modules, full), changed, p)
  {
    var fullest := FullestCompletion(modules, references);
    ReachesSame(Possible(modules, references), Running(modules, fullest), changed, p);
    if full :| Completes(references, full) && Reaches(Running(modules, full), changed, p) {
      forall q, r | Running(modules, full)(q, r) ensures Possible(modules, references)(q, r) {
        CompletionPossible(modules, references, full, q, r);
      }
      ReachesSame(Running(modules, full), Possible(modules, references), changed, p);
    }
  }

  // ---------------------------------------------------------------- files missed

  /** Whatever the unparsed files refer to, every file whose imports run a changed file is reached. */
  ghost predicate Complete(modules: map<Path, Name>, references: References, changed: seq<Path>) {
    forall full, p :: Completes(references, full) && Reaches(Running(modules, full), changed, p)
      ==> Reaches(Resolved(modules, references), changed, p)
  }

  /** No file outside what is reached runs a reached file without a resolved import of it: the module name is
      shared, or the file is the initialiser of a package that is only named as part of a longer name. */
  ghost predicate NothingHidden(modules: map<Path, Name>, references: References, changed: seq<Path>) {
    forall q, p ::
      (&& Reaches(Resolved(modules, references), changed, q) && Runs(modules, references, p, q)
       && !Imports(modules, references, p, q))
      ==> Reaches(Resolved(modules, references), changed, p)
  }

  /** Nor is a file outside it unparsed, once something of the project is reached. */
  ghost predicate NoUnparsedOutside(modules: map<Path, Name>, references: References, changed: seq<Path>) {
    forall q, p ::
      (&& Reaches(Resolved(modules, references), changed, q) && q in modules
       && Unparsed(modules, references, p) && q != p)
      ==> Reaches(Resolved(modules, references), changed, p)
  }

  /** Resolved imports find every file that possibly runs its way to a change exactly when nothing hidden and no
      unparsed file is crossed on the way. */
  lemma PossibleFoundExactly(modules: map<Path, Name>, references: References, changed: seq<Path>)
    ensures (forall p :: Reaches(Possible(modules, references), changed, p)
                         ==> Reaches(Resolved(modules, references), changed, p))
            <==> NothingHidden(modules, references, changed) && NoUnparsedOutside(modules, references, changed)
  {
    var all, found := Possible(modules, references), Resolved(modules, references);
    if NothingHidden(modules, references, changed) && NoUnparsedOutside(modules, references, changed) {
      var within := iset q | Reaches(found, changed, q);
      forall c | c in changed ensures c in within {
        ReachesSelf(found, changed, c);
      }
      forall q, p | q in within && all(q, p) ensures p in within {
        if Imports(modules, references, p, q) {
          ReachesStep(found, changed, q, p);
        }
      }
      forall p | Reaches(all, changed, p) ensures Reaches(found, changed, p) {
        ReachStays(all, changed, within, p);
      }
    }
    if forall p :: Reaches(all, changed, p) ==> Reaches(found, changed, p) {
      forall q, p | Reaches(found, changed, q) && all(q, p)
        ensures Reaches(found, changed, p)
      {
        ResolvedPossible(modules, references, changed, q);
        ReachesStep(all, changed, q, p);
      }
      NothingCrossed(modules, references, changed);
    }
  }

  lemma ResolvedPossible(modules: map<Path, Name>, references: References, changed: seq<Path>, p: Path)
    ensures Reaches(Resolved(modules, references), changed, p) ==> Reaches(Possible(modules, references), changed, p)
  {
    forall q, r | Resolved(modules, references)(q, r) ensures Possible(modules, references)(q, r) {
      MentionRuns(modules, references, r, q);
    }
    ReachesSame(Resolved(modules, references), Possible(modules, references), changed, p);
  }

  lemma NothingCrossed(modules: map<Path, Name>, references: References, changed: seq<Path>)
    requires forall q, p :: Reaches(Resolved(modules, references), changed, q) && Possible(modules, references)(q, p)
               ==> Reaches(Resolved(modules, references), changed, p)
    ensures NothingHidden(modules, references, changed) && NoUnparsedOutside(modules, references, changed)
  {
    forall q, p | Reaches(Resolved(modules, references), changed, q) && Runs(modules, references, p, q)
      ensures Reaches(Resolved(modules, references), changed, p)
    {
      assert Possible(modules, references)(q, p);
    }
    forall q, p | Reaches(Resolved(modules, references), changed, q) && q in modules
        && Unparsed(modules, references, p) && q != p
      ensures Reaches(Resolved(modules, references), changed, p)
    {
      assert Possible(modules, references)(q, p);
    }
  }

  lemma ClosureCompleteExactly(modules: map<Path, Name>, references: References, changed: seq<Path>)
    requires modules.Keys <= references.Keys
    ensures Complete(modules, references, changed)
            <==> NothingHidden(modules, references, changed) && NoUnparsedOutside(modules, references, changed)
  {
    forall p
      ensures Reaches(Possible(modules, references), changed, p)
              <==> exists full :: Completes(references, full) && Reaches(Running(modules, full), changed, p)
    {
      PossibleExactly(modules, references, changed, p);
    }
    PossibleFoundExactly(modules, references, changed);
  }

  /** An unparsed file imports nothing that resolves, so it is reached only when it is changed itself. */
  lemma UnparsedNotReached(modules: map<Path, Name>, references: References, changed: seq<Path>, p: Path)
    requires Unparsed(modules, references, p) && Reaches(Resolved(modules, references), changed, p)
    ensures p in changed
  {
    LastStep(Resolved(modules, references), changed, p);
  }

  /** Nothing changed is opaque to the graph. */
  ghost predicate Narrows(modules: map<Path, Name>, references: References, changed: seq<Path>) {
    && changed != []
    && forall c :: c in changed ==> c in modules && !Ambiguous(modules, c) && !Unparsed(modules, references, c)
  }

  lemma TestsNarrow(g: Graph, modules: map<Path, Name>, references: References, changed: seq<Path>, s: Selection)
    requires Describes(g, modules, references) && IsSelection(g, changed, s) && s.Tests? && changed != []
    ensures Narrows(modules, references, changed)
  {
    forall c | c in changed ensures c in modules && !Ambiguous(modules, c) && !Unparsed(modules, references, c) {
      var i :| 0 <= i < |changed| && changed[i] == c;
      assert !MustWiden(g, changed[i]);
    }
  }

  lemma UnparsedOutside(modules: map<Path, Name>, references: References, changed: seq<Path>, p: Path)
    requires Narrows(modules, references, changed) && Unparsed(modules, references, p)
    ensures !NoUnparsedOutside(modules, references, changed)
  {
    var c := changed[0];
    ReachesSelf(Resolved(modules, references), changed, c);
    if Reaches(Resolved(modules, references), changed, p) {
      UnparsedNotReached(modules, references, changed, p);
    }
    assert c in changed && c != p;
  }

  ghost predicate AllParse(modules: map<Path, Name>, references: References) {
    forall p :: p in modules ==> !Unparsed(modules, references, p)
  }

  /** For a change that does not widen, no file is missed exactly when every file of the project parses and
      nothing hidden is crossed. */
  lemma NarrowsCompleteExactly(modules: map<Path, Name>, references: References, changed: seq<Path>)
    requires modules.Keys <= references.Keys && Narrows(modules, references, changed)
    ensures Complete(modules, references, changed)
            <==> AllParse(modules, references) && NothingHidden(modules, references, changed)
  {
    ClosureCompleteExactly(modules, references, changed);
    if !AllParse(modules, references) {
      var p :| p in modules && Unparsed(modules, references, p);
      UnparsedOutside(modules, references, changed, p);
    }
  }

  // ---------------------------------------------------------------- tests missed

  /** Whatever the unparsed files refer to, every test whose imports run a changed file is selected. */
  ghost predicate SelectsAffected(modules: map<Path, Name>, references: References, changed: seq<Path>, s: Selection) {
    forall full, p ::
      (Completes(references, full) && IsTest(p) && Reaches(Running(modules, full), changed, p))
      ==> s == WholeSuite || p in s.paths
  }

  /** The unparsed files of the project. */
  ghost predicate ListsUnparsed(modules: map<Path, Name>, references: References, unparsed: seq<Path>) {
    forall p :: p in unparsed <==> Unparsed(modules, references, p)
  }

  lemma UnparsedListed(modules: map<Path, Name>, references: References) returns (unparsed: seq<Path>)
    ensures ListsUnparsed(modules, references, unparsed)
  {
    unparsed := Listing(set p | p in modules && Unparsed(modules, references, p));
  }

  /** From a change that narrows, possibly running one's way to it is running one's way to it or to an unparsed
      file. */
  lemma PossibleFromUnparsed(
    modules: map<Path, Name>, references: References, changed: seq<Path>, unparsed: seq<Path>, p: Path)
    requires Narrows(modules, references, changed) && ListsUnparsed(modules, references, unparsed)
    ensures Reaches(Possible(modules, references), changed, p)
            <==> Reaches(Running(modules, references), changed + unparsed, p)
  {
    var all, found := Possible(modules, references), Running(modules, references);
    var c := changed[0];
    if Reaches(all, changed, p) {
      var within := iset q | Reaches(found, changed + unparsed, q);
      forall q | q in changed || q in unparsed ensures q in within {
        ReachesSelf(found, changed + unparsed, q);
      }
      forall q, r | q in within && all(q, r) ensures r in within {
        if Runs(modules, references, r, q) {
          ReachesStep(found, changed + unparsed, q, r);
        }
      }
      ReachStays(all, changed, within, p);
    }
    if Reaches(found, changed + unparsed, p) {
      var within := iset q | Reaches(all, changed, q);
      assert c in changed;
      ReachesSelf(all, changed, c);
      forall q | q in changed + unparsed ensures q in within {
        if q in changed {
          ReachesSelf(all, changed, q);
        } else {
          assert c != q;
          ReachesStep(all, changed, c, q);
        }
      }
      forall q, r | q in within && found(q, r) ensures r in within {
        ReachesStep(all, changed, q, r);
      }
      ReachStays(found, changed + unparsed, within, p);
    }
  }

  /** When no changed path widens, no affected test is missed, whatever the unparsed files refer to, exactly when
      every test that runs its way to a changed or an unparsed file reaches a changed one along resolved
      imports. */
  lemma SelectsAffectedExactly(
    g: Graph, modules: map<Path, Name>, references: References, changed: seq<Path>, unparsed: seq<Path>, s: Selection)
    requires modules.Keys <= references.Keys && Describes(g, modules, references)
    requires IsSelection(g, changed, s) && s.Tests? && changed != [] && ListsUnparsed(modules, references, unparsed)
    ensures SelectsAffected(modules, references, changed, s) <==>
      forall p :: IsTest(p) && Reaches(Running(modules, references), changed + unparsed, p)
                  ==> Reaches(Resolved(modules, references), changed, p)
  {
    TestsNarrow(g, modules, references, changed, s);
    if SelectsAffected(modules, references, changed, s) {
      forall p | IsTest(p) && Reaches(Running(modules, references), changed + unparsed, p)
        ensures Reaches(Resolved(modules, references), changed, p)
      {
        PossibleFromUnparsed(modules, references, changed, unparsed, p);
        PossibleExactly(modules, references, changed, p);
        SelectionIsReachability(g, modules, references, changed, s, p);
      }
    }
    if forall p :: IsTest(p) && Reaches(Running(modules, references), changed + unparsed, p)
                   ==> Reaches(Resolved(modules, references), changed, p) {
      forall full, p | Completes(references, full) && IsTest(p) && Reaches(Running(modules, full), changed, p)
        ensures p in s.paths
      {
        PossibleExactly(modules, references, changed, p);
        PossibleFromUnparsed(modules, references, changed, unparsed, p);
        SelectionIsReachability(g, modules, references, changed, s, p);
      }
    }
  }

  /** Missing no file, it misses no test. */
  lemma CompleteSelects(g: Graph, modules: map<Path, Name>, references: References, changed: seq<Path>, s: Selection)
    requires modules.Keys <= references.Keys && Describes(g, modules, references)
    requires IsSelection(g, changed, s) && Complete(modules, references, changed) && changed != []
    ensures SelectsAffected(modules, references, changed, s)
  {
    if s.Tests? {
      forall full, p | Completes(references, full) && IsTest(p) && Reaches(Running(modules, full), changed, p)
        ensures p in s.paths
      {
        SelectionIsReachability(g, modules, references, changed, s, p);
      }
    }
  }

  /** A project on which the selector misses nothing, whatever changes: every file parses, a file that refers to a
      module also refers to the packages above it, and no file with a shared module name imports another file of
      the project. */
  ghost predicate PlainProject(modules: map<Path, Name>, references: References) {
    && AllParse(modules, references)
    && (forall q, p :: Runs(modules, references, p, q) ==> Mentions(modules, references, p, q))
    && forall q, r :: Ambiguous(modules, q) ==> !Imports(modules, references, q, r)
  }

  lemma PlainProjectComplete(
    g: Graph, modules: map<Path, Name>, references: References, changed: seq<Path>, s: Selection)
    requires modules.Keys <= references.Keys && Describes(g, modules, references) && PlainProject(modules, references)
    requires IsSelection(g, changed, s) && changed != []
    ensures SelectsAffected(modules, references, changed, s)
  {
    if s.Tests? {
      TestsNarrow(g, modules, references, changed, s);
      forall q | Reaches(Resolved(modules, references), changed, q)
        ensures !Ambiguous(modules, q)
      {
        LastStep(Resolved(modules, references), changed, q);
      }
      NarrowsCompleteExactly(modules, references, changed);
      CompleteSelects(g, modules, references, changed, s);
    }
  }

  /** The initialiser of a package runs when a module below it is imported, but the import names the module only: a
      test that imports the module is not selected when the initialiser changes. */
  lemma PackageHidesTest(
    test: Path, below: Path, changed: Path, t: Name, package: Name, last: Name, g: Graph, s: Selection)
    requires test != below && test != changed && below != changed
    requires package != [] && t != package && t != package + [DOT] + last
    requires IsTest(test) && IsPython(changed) && FileName(changed) != Points("conftest.py")
    requires Describes(g, PackageModules(test, below, changed, t, package, last),
        PackageReferences(test, below, changed, package, last))
    requires IsSelection(g, [changed], s)
    ensures AllParse(PackageModules(test, below, changed, t, package, last),
        PackageReferences(test, below, changed, package, last))
    ensures !SelectsAffected(PackageModules(test, below, changed, t, package, last),
                             PackageReferences(test, below, changed, package, last), [changed], s)
  {
    var modules := PackageModules(test, below, changed, t, package, last);
    var references := PackageReferences(test, below, changed, package, last);
    PackagePlain(test, below, changed, t, package, last);
    PackageNotReached(test, below, changed, t, package, last);
    NotSelected(g, modules, references, changed, s, test);
    PackageRuns(test, below, changed, t, package, last);
    assert Completes(references, references);
  }

  function PackageModules(test: Path, below: Path, changed: Path, t: Name, package: Name, last: Name): map<Path, Name> {
    map[test := t, below := package + [DOT] + last, changed := package]
  }

  function PackageReferences(test: Path, below: Path, changed: Path, package: Name, last: Name): References {
    map[test := Some([package + [DOT] + last]), below := Some([]), changed := Some([])]
  }

  lemma PackageRuns(test: Path, below: Path, changed: Path, t: Name, package: Name, last: Name)
    requires test != below && test != changed && below != changed && package != []
    ensures Reaches(Running(PackageModules(test, below, changed, t, package, last),
                            PackageReferences(test, below, changed, package, last)), [changed], test)
  {
    var modules := PackageModules(test, below, changed, t, package, last);
    var references := PackageReferences(test, below, changed, package, last);
    var name := package + [DOT] + last;
    assert IsAbove(package, name);
    assert name in references[test].value;
    ReachesSelf(Running(modules, references), [changed], changed);
    ReachesStep(Running(modules, references), [changed], changed, test);
  }

  lemma PackagePlain(test: Path, below: Path, changed: Path, t: Name, package: Name, last: Name)
    requires test != below && test != changed && below != changed
    requires package != [] && t != package && t != package + [DOT] + last
    ensures var modules := PackageModules(test, below, changed, t, package, last);
      var references := PackageReferences(test, below, changed, package, last);
      && modules.Keys <= references.Keys && changed in modules && AllParse(modules, references)
      && !Ambiguous(modules, changed) && !Unparsed(modules, references, changed)
      && forall p :: !Imports(modules, references, p, changed)
  {
    assert package + [DOT] + last != package;
  }

  lemma PackageNotReached(test: Path, below: Path, changed: Path, t: Name, package: Name, last: Name)
    requires test != below && test != changed && below != changed
    requires package != [] && t != package && t != package + [DOT] + last
    ensures !Reaches(Resolved(PackageModules(test, below, changed, t, package, last),
                              PackageReferences(test, below, changed, package, last)), [changed], test)
  {
    var found := Resolved(PackageModules(test, below, changed, t, package, last),
                          PackageReferences(test, below, changed, package, last));
    PackagePlain(test, below, changed, t, package, last);
    if Reaches(found, [changed], test) {
      ReachStays(found, [changed], iset{changed}, test);
      assert false;
    }
  }

  /** An unchanged file that does not parse hides a dependent too: a test that imports it is not selected,
      though the file may import the change. */
  lemma UnparsedHidesTest(test: Path, middle: Path, changed: Path, t: Name, m: Name, c: Name, g: Graph, s: Selection)
    requires test != middle && test != changed && middle != changed && t != m && m != c && t != c
    requires IsTest(test) && IsPython(changed) && FileName(changed) != Points("conftest.py")
    requires Describes(g, MiddleModules(test, middle, changed, t, m, c),
        MiddleReferences(test, middle, changed, m, None))
    requires IsSelection(g, [changed], s)
    ensures s.Tests? && test !in s.paths
    ensures !SelectsAffected(MiddleModules(test, middle, changed, t, m, c),
                             MiddleReferences(test, middle, changed, m, None), [changed], s)
  {
    var modules := MiddleModules(test, middle, changed, t, m, c);
    var references := MiddleReferences(test, middle, changed, m, None);
    MiddleMentions(test, middle, changed, t, m, c);
    MiddleNotReached(test, middle, changed, t, m, c);
    MiddlePlain(test, middle, changed, t, m, c);
    MiddleCompletes(test, middle, changed, m, c);
    NotSelected(g, modules, references, changed, s, test);
  }

  lemma MiddleCompletes(test: Path, middle: Path, changed: Path, m: Name, c: Name)
    requires test != middle && test != changed && middle != changed
    ensures Completes(MiddleReferences(test, middle, changed, m, None),
        MiddleReferences(test, middle, changed, m, Some([c])))
  {
  }

  lemma MiddlePlain(test: Path, middle: Path, changed: Path, t: Name, m: Name, c: Name)
    requires test != middle && test != changed && middle != changed && t != m && m != c && t != c
    ensures var modules, references := MiddleModules(test, middle, changed, t, m, c),
        MiddleReferences(test, middle, changed, m, None);
      && modules.Keys <= references.Keys && changed in modules
      && !Ambiguous(modules, changed) && !Unparsed(modules, references, changed)
  {
  }

  /** A single change that does not widen leaves out what does not reach it. */
  lemma NotSelected(g: Graph, modules: map<Path, Name>, references: References, changed: Path, s: Selection, test: Path)
    requires modules.Keys <= references.Keys && Describes(g, modules, references) && IsSelection(g, [changed], s)
    requires IsPython(changed) && FileName(changed) != Points("conftest.py") && changed in modules
    requires !Ambiguous(modules, changed) && !Unparsed(modules, references, changed)
    requires !Reaches(Resolved(modules, references), [changed], test)
    ensures s.Tests? && test !in s.paths
  {
    assert !MustWiden(g, changed);
    SelectionIsReachability(g, modules, references, [changed], s, test);
  }

  function MiddleModules(test: Path, middle: Path, changed: Path, t: Name, m: Name, c: Name): map<Path, Name> {
    map[test := t, middle := m, changed := c]
  }

  function MiddleReferences(test: Path, middle: Path, changed: Path, m: Name, found: Option<seq<Name>>): References {
    map[test := Some([m]), middle := found, changed := Some([])]
  }

  lemma MiddleMentions(test: Path, middle: Path, changed: Path, t: Name, m: Name, c: Name)
    requires test != middle && test != changed && middle != changed
    ensures Reaches(Running(MiddleModules(test, middle, changed, t, m, c),
        MiddleReferences(test, middle, changed, m, Some([c]))), [changed], test)
  {
    var all := Running(MiddleModules(test, middle, changed, t, m, c),
        MiddleReferences(test, middle, changed, m, Some([c])));
    var modules, references := MiddleModules(test, middle, changed, t, m, c),
        MiddleReferences(test, middle, changed, m, Some([c]));
    MentionRuns(modules, references, middle, changed);
    MentionRuns(modules, references, test, middle);
    ReachesSelf(all, [changed], changed);
    ReachesStep(all, [changed], changed, middle);
    ReachesStep(all, [changed], middle, test);
  }

  lemma MiddleNotReached(test: Path, middle: Path, changed: Path, t: Name, m: Name, c: Name)
    requires test != middle && test != changed && middle != changed && t != m && m != c && t != c
    ensures !Reaches(Resolved(MiddleModules(test, middle, changed, t, m, c),
        MiddleReferences(test, middle, changed, m, None)), [changed], test)
  {
    var found := Resolved(MiddleModules(test, middle, changed, t, m, c),
        MiddleReferences(test, middle, changed, m, None));
    if Reaches(found, [changed], test) {
      ReachStays(found, [changed], iset{changed}, test);
      assert false;
    }
  }

  /** Widening looks at changed paths only, so a shared name further along hides a dependent: a test that
      imports either of two files of one name, both importing the changed file, is not selected. */
  lemma SharedNameHidesTest(
    test: Path, one: Path, other: Path, changed: Path, t: Name, m: Name, c: Name, g: Graph, s: Selection)
    requires test != one && test != other && test != changed && one != other && one != changed && other != changed
    requires t != m && m != c && t != c
    requires IsTest(test) && IsPython(changed) && FileName(changed) != Points("conftest.py")
    requires Describes(g, SharedModules(test, one, other, changed, t, m, c),
                       SharedReferences(test, one, other, changed, m, c))
    requires IsSelection(g, [changed], s)
    ensures s.Tests? && test !in s.paths
    ensures !SelectsAffected(SharedModules(test, one, other, changed, t, m, c),
                             SharedReferences(test, one, other, changed, m, c), [changed], s)
  {
    var modules := SharedModules(test, one, other, changed, t, m, c);
    var references := SharedReferences(test, one, other, changed, m, c);
    SharedMentioned(test, one, other, changed, t, m, c);
    SharedNotReached(test, one, other, changed, t, m, c);
    SharedPlain(test, one, other, changed, t, m, c);
    SharedParses(test, one, other, changed, m, c);
    NotSelected(g, modules, references, changed, s, test);
  }

  lemma SharedParses(test: Path, one: Path, other: Path, changed: Path, m: Name, c: Name)
    ensures var references := SharedReferences(test, one, other, changed, m, c); Completes(references, references)
  {
  }

  lemma SharedPlain(test: Path, one: Path, other: Path, changed: Path, t: Name, m: Name, c: Name)
    requires test != one && test != other && test != changed && one != other && one != changed && other != changed
    requires t != m && m != c && t != c
    ensures var modules, references := SharedModules(test, one, other, changed, t, m, c),
        SharedReferences(test, one, other, changed, m, c);
      && modules.Keys <= references.Keys && changed in modules
      && !Ambiguous(modules, changed) && !Unparsed(modules, references, changed)
  {
  }

  lemma SharedMentioned(test: Path, one: Path, other: Path, changed: Path, t: Name, m: Name, c: Name)
    requires test != one && test != other && test != changed && one != other && one != changed && other != changed
    ensures Reaches(Running(SharedModules(test, one, other, changed, t, m, c),
        SharedReferences(test, one, other, changed, m, c)), [changed], test)
  {
    var all := Running(SharedModules(test, one, other, changed, t, m, c),
        SharedReferences(test, one, other, changed, m, c));
    var modules, references := SharedModules(test, one, other, changed, t, m, c),
        SharedReferences(test, one, other, changed, m, c);
    MentionRuns(modules, references, one, changed);
    MentionRuns(modules, references, test, one);
    ReachesSelf(all, [changed], changed);
    ReachesStep(all, [changed], changed, one);
    ReachesStep(all, [changed], one, test);
  }

  function SharedModules(
    test: Path, one: Path, other: Path, changed: Path, t: Name, m: Name, c: Name): map<Path, Name> {
    map[test := t, one := m, other := m, changed := c]
  }

  function SharedReferences(test: Path, one: Path, other: Path, changed: Path, m: Name, c: Name): References {
    map[test := Some([m]), one := Some([c]), other := Some([c]), changed := Some([])]
  }

  lemma SharedNotReached(test: Path, one: Path, other: Path, changed: Path, t: Name, m: Name, c: Name)
    requires test != one && test != other && test != changed && one != other && one != changed && other != changed
    requires t != m && m != c && t != c
    ensures !Reaches(Resolved(SharedModules(test, one, other, changed, t, m, c),
        SharedReferences(test, one, other, changed, m, c)), [changed], test)
  {
    var modules, references := SharedModules(test, one, other, changed, t, m, c),
        SharedReferences(test, one, other, changed, m, c);
    assert one in modules && other in modules && modules[one] == modules[other];
    assert Ambiguous(modules, one) && Ambiguous(modules, other);
    if Reaches(Resolved(modules, references), [changed], test) {
      ReachStays(Resolved(modules, references), [changed], iset{changed, one, other}, test);
      assert false;
    }
  }
}
