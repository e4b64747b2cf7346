/** The order packages are published in: a depth-first walk that throws on a cycle. */
module PublishOrder {
  import opened Wrappers
  import opened Sequences
  import opened DependencyGraph

  datatype Package = Package(name: Name, dependencies: seq<Name>)

  datatype Mark = Visiting | Done

  function Names(packages: seq<Package>): (names: seq<Name>)
    ensures |names| == |packages| && forall i :: 0 <= i < |names| ==> names[i] == packages[i].name
  {
    seq(|packages|, i requires 0 <= i < |packages| => packages[i].name)
  }

  /** `new Map`: of packages with one name the last wins. */
  function ByName(packages: seq<Package>): (m: map<Name, Package>)
    ensures forall n :: n in m <==> n in Names(packages)
    ensures forall n :: n in m ==> m[n].name == n && m[n] in packages
  {
    if packages == [] then map[]
    else
      assert packages == packages[..|packages| - 1] + [packages[|packages| - 1]];
      assert Names(packages) == Names(packages[..|packages| - 1]) + [packages[|packages| - 1].name];
      ByName(packages[..|packages| - 1])[packages[|packages| - 1].name := packages[|packages| - 1]]
  }

  /** What the packages of one name declare, when each name is one package's. */
  function GraphOf(packages: seq<Package>): Graph {
    var m := ByName(packages);
    map n | n in m :: m[n].dependencies
  }

  /** Everything that any package called `n` depends on. */
  function Declared(packages: seq<Package>, n: Name): seq<Name> {
    if packages == [] then []
    else
      var last := packages[|packages| - 1];
      Declared(packages[..|packages| - 1], n) + if last.name == n then last.dependencies else []
  }

  /** The dependencies between names, whichever of the packages of a name is taken. */
  function AllEdges(packages: seq<Package>): Graph {
    var m := ByName(packages);
    map n | n in m :: Declared(packages, n)
  }

  lemma {:induction false} DeclaredByAll(packages: seq<Package>, p: Package)
    requires p in packages
    ensures forall d :: d in p.dependencies ==> d in Declared(packages, p.name)
  {
    var front, last := packages[..|packages| - 1], packages[|packages| - 1];
    assert packages == front + [last];
    if p in front { DeclaredByAll(front, p); }
  }

  lemma {:induction false} DeclaredBySome(packages: seq<Package>, n: Name, d: Name)
    requires d in Declared(packages, n)
    ensures exists p :: p in packages && p.name == n && d in p.dependencies
  {
    var front, last := packages[..|packages| - 1], packages[|packages| - 1];
    assert packages == front + [last];
    if d in Declared(front, n) { DeclaredBySome(front, n, d); }
  }

  /** An edge goes from a name to another one that some package of the first name depends on. */
  lemma EdgeMeansDeclared(packages: seq<Package>, n: Name, d: Name)
    ensures Edge(AllEdges(packages), n, d) <==>
      d in Names(packages) && exists p :: p in packages && p.name == n && d in p.dependencies
  {
    hide ByName;
    if n in Names(packages) && d in Declared(packages, n) { DeclaredBySome(packages, n, d); }
    forall p | p in packages && p.name == n && d in p.dependencies ensures n in Names(packages) && d in Declared(packages, n) {
      DeclaredByAll(packages, p);
    }
  }

  lemma {:induction false} FoundByName(packages: seq<Package>, i: nat)
    requires i < |packages| && Distinct(Names(packages))
    ensures packages[i].name in ByName(packages) && ByName(packages)[packages[i].name] == packages[i]
  {
    hide ByName;
    assert Names(packages)[i] == packages[i].name;
    var p := ByName(packages)[packages[i].name];
    var j :| 0 <= j < |packages| && packages[j] == p;
    assert Names(packages)[j] == Names(packages)[i];
  }

  /** Every package comes after those it depends on itself, as far as `known` has them. */
  ghost predicate OwnFirst(ordered: seq<Package>, known: set<Name>) {
    forall i, d :: 0 <= i < |ordered| && d in ordered[i].dependencies && d in known ==> d in Names(ordered)[..i]
  }

  lemma OwnMore(ordered: seq<Package>, known: set<Name>, p: Package)
    requires OwnFirst(ordered, known) && forall d :: d in p.dependencies && d in known ==> d in Names(ordered)
    ensures OwnFirst(ordered + [p], known)
  {
    var more := ordered + [p];
    assert Names(more) == Names(ordered) + [p.name];
    forall i, d | 0 <= i < |more| && d in more[i].dependencies && d in known ensures d in Names(more)[..i] {
      assert Names(more)[..i] == Names(ordered)[..i];
    }
  }

  lemma DistinctMore(ordered: seq<Package>, p: Package)
    requires Distinct(Names(ordered)) && p.name !in Names(ordered)
    ensures Distinct(Names(ordered + [p])) && Names(ordered + [p]) == Names(ordered) + [p.name]
  {
    assert Names(ordered + [p]) == Names(ordered) + [p.name];
  }

  class Walk {
    const byName: map<Name, Package>
    ghost const packages: seq<Package>
    ghost const graph: Graph
    var state: map<Name, Mark>
    var ordered: seq<Package>

    constructor (packages: seq<Package>)
      ensures this.packages == packages && byName == ByName(packages) && graph == AllEdges(packages) && Valid([])
      ensures state == map[] && ordered == []
    {
      this.packages, byName, graph := packages, ByName(packages), AllEdges(packages);
      state, ordered := map[], [];
    }

    /** `branch` is the path of packages being visited; the finished ones are in order. */
    ghost predicate Valid(branch: seq<Name>)
      reads this
    {
      && byName == ByName(packages) && graph == AllEdges(packages)
      && (branch == [] || IsPath(graph, branch))
      && (forall n :: n in branch <==> n in state && state[n] == Visiting)
      && (forall n :: n in state ==> n in graph)
      && (forall n :: n in Names(ordered) <==> n in state && state[n] == Done)
      && (forall p :: p in ordered ==> p in packages)
      && Distinct(Names(ordered)) && OwnFirst(ordered, graph.Keys)
    }

    predicate IsDone(n: Name)
      reads this`state
    {
      n in state && state[n] == Done
    }

    method Visit(pkg: Package, ghost branch: seq<Name>) returns (failed: Option<Name>, ghost cycle: seq<Name>)
      requires Valid(branch) && pkg in packages
      requires branch != [] ==> Edge(graph, branch[|branch| - 1], pkg.name)
      modifies this`state, this`ordered
      ensures failed.Some? ==> IsCycle(graph, cycle) && failed.value in cycle
      ensures failed.None? ==> Valid(branch) && IsDone(pkg.name) && forall n :: old(IsDone(n)) ==> IsDone(n)
      ensures failed.None? ==> old(state).Keys <= state.Keys
      decreases graph.Keys - state.Keys
    {
      hide IsCycle, Valid, Edge, AllEdges, ByName;
      var name := pkg.name;
      cycle := [];
      if name in state && state[name] == Done { return None, []; }
      if name in state && state[name] == Visiting {
        Reached(name, branch);
        BranchCloses(graph, branch, name);
        return Some(name), branch[IndexOf(branch, name)..] + [name];
      }
      IsKnown(pkg, branch);
      Enter(name, branch);
      ghost var here := branch + [name];
      for i := 0 to |pkg.dependencies|
        invariant Valid(here) && forall n :: old(IsDone(n)) ==> IsDone(n)
        invariant old(state).Keys + {name} <= state.Keys
        invariant forall d :: d in pkg.dependencies[..i] && d in graph ==> IsDone(d)
      {
        var dep := pkg.dependencies[i];
        SameNames(dep, here);
        if dep in byName {
          IsEdge(dep, pkg, here);
          failed, cycle := Visit(byName[dep], here);
          if failed.Some? { return; }
        }
      }
      assert pkg.dependencies[..|pkg.dependencies|] == pkg.dependencies;
      Leave(pkg, branch);
      failed := None;
    }

    lemma Reached(name: Name, branch: seq<Name>)
      requires Valid(branch) && name in state && state[name] == Visiting
      ensures name in branch && IsPath(graph, branch)
    {
    }

    lemma IsKnown(pkg: Package, branch: seq<Name>)
      requires Valid(branch) && pkg in packages
      ensures pkg.name in graph && state.Keys <= graph.Keys && (pkg.name !in state ==> pkg.name !in branch)
    {
      var i :| 0 <= i < |packages| && packages[i] == pkg;
      assert Names(packages)[i] == pkg.name;
    }

    lemma SameNames(dep: Name, branch: seq<Name>)
      requires Valid(branch)
      ensures dep in graph <==> dep in byName
    {
    }

    lemma IsEdge(dep: Name, pkg: Package, branch: seq<Name>)
      requires Valid(branch) && pkg in packages && dep in byName && dep in pkg.dependencies
      ensures byName[dep] in packages && byName[dep].name == dep && Edge(graph, pkg.name, dep)
    {
      IsKnown(pkg, branch);
      DeclaredByAll(packages, pkg);
    }

    method Enter(name: Name, ghost branch: seq<Name>)
      requires Valid(branch) && name in graph && name !in state
      requires branch != [] ==> Edge(graph, branch[|branch| - 1], name)
      modifies this`state
      ensures Valid(branch + [name]) && state == old(state)[name := Visiting]
    {
      hide Distinct, OwnFirst, Edge, IsPath, AllEdges, ByName;
      PathMore(graph, branch, name);
      state := state[name := Visiting];
    }

    method Leave(pkg: Package, ghost branch: seq<Name>)
      requires Valid(branch + [pkg.name]) && pkg.name !in branch && pkg in packages
      requires forall d :: d in pkg.dependencies && d in graph ==> IsDone(d)
      modifies this`state, this`ordered
      ensures Valid(branch) && state == old(state)[pkg.name := Done]
    {
      hide IsPath, Distinct, OwnFirst, AllEdges, ByName;
      PathPrefix(graph, branch, pkg.name);
      assert pkg.name in branch + [pkg.name];
      OwnMore(ordered, graph.Keys, pkg);
      DistinctMore(ordered, pkg);
      state := state[pkg.name := Done];
      ordered := ordered + [pkg];
    }
  }

  /**
   Always terminates. When it throws, the names it met form a cycle of
   dependencies; otherwise every name is published once, and each package behind
   all it depends on. Given distinct names that is: it throws exactly when the
   dependencies among the packages have a cycle, and otherwise returns the same
   packages.
   */
  method PublishOrder(packages: seq<Package>)
    returns (ordered: seq<Package>, failed: Option<Name>, ghost cycle: seq<Name>)
    ensures failed.Some? ==> IsCycle(AllEdges(packages), cycle) && failed.value in cycle
    ensures failed.None? ==> Distinct(Names(ordered)) && forall p :: p in ordered ==> p in packages
    ensures failed.None? ==> forall n :: n in Names(ordered) <==> n in Names(packages)
    ensures failed.None? ==> DependenciesFirst(GraphOf(ordered), Names(ordered)) && !HasCycle(GraphOf(ordered))
    ensures Distinct(Names(packages)) ==> AllEdges(packages) == GraphOf(packages)
    ensures Distinct(Names(packages)) ==> (failed.Some? <==> HasCycle(GraphOf(packages)))
    ensures Distinct(Names(packages)) && failed.None? ==>
      multiset(ordered) == multiset(packages) && DependenciesFirst(GraphOf(packages), Names(ordered))
  {
    hide IsCycle, DependenciesFirst, GraphOf, AllEdges, ByName, Distinct, HasCycle, Names, Walk.Valid;
    if Distinct(Names(packages)) { OneEach(packages); }
    var walk := new Walk(packages);
    for i := 0 to |packages|
      invariant walk.Valid([]) && walk.packages == packages && walk.graph == AllEdges(packages) && fresh(walk)
      invariant forall j :: 0 <= j < i ==> walk.IsDone(packages[j].name)
    {
      failed, cycle := walk.Visit(packages[i], []);
      if failed.Some? {
        IsACycle(AllEdges(packages), cycle);
        return [], failed, cycle;
      }
    }
    ordered := walk.ordered;
    failed, cycle := None, [];
    AllOrdered(walk);
    if Distinct(Names(packages)) { SamePackages(packages, ordered); }
  }

  lemma IsACycle(g: Graph, p: seq<Name>)
    requires IsCycle(g, p)
    ensures HasCycle(g)
  {
  }

  lemma {:induction false} NotDeclared(packages: seq<Package>, n: Name)
    requires n !in Names(packages)
    ensures Declared(packages, n) == []
  {
    if packages != [] {
      assert Names(packages)[|packages| - 1] != n;
      assert Names(packages[..|packages| - 1]) == Names(packages)[..|packages| - 1];
      NotDeclared(packages[..|packages| - 1], n);
    }
  }

  /** A name of one package declares what that package does. */
  lemma {:induction false} DeclaredOnce(packages: seq<Package>, p: Package)
    requires Distinct(Names(packages)) && p in packages
    ensures Declared(packages, p.name) == p.dependencies
  {
    hide Distinct, Names;
    var front, last := packages[..|packages| - 1], packages[|packages| - 1];
    LastName(packages);
    FrontDistinct(Names(front), last.name);
    if p in front {
      DeclaredOnce(front, p);
    } else {
      NotDeclared(front, p.name);
    }
  }

  lemma LastName(packages: seq<Package>)
    requires packages != []
    ensures packages == packages[..|packages| - 1] + [packages[|packages| - 1]]
    ensures Names(packages) == Names(packages[..|packages| - 1]) + [packages[|packages| - 1].name]
  {
  }

  lemma FrontDistinct(names: seq<Name>, n: Name)
    requires Distinct(names + [n])
    ensures Distinct(names) && n !in names
  {
    forall i, j | 0 <= i < j < |names| ensures names[i] != names[j] {
      assert (names + [n])[i] != (names + [n])[j];
    }
    forall i | 0 <= i < |names| ensures names[i] != n {
      assert (names + [n])[i] != (names + [n])[|names|];
    }
  }

  lemma OneEach(packages: seq<Package>)
    requires Distinct(Names(packages))
    ensures AllEdges(packages) == GraphOf(packages)
  {
    hide Distinct;
    forall n | n in ByName(packages) ensures Declared(packages, n) == ByName(packages)[n].dependencies {
      DeclaredOnce(packages, ByName(packages)[n]);
    }
  }

  lemma OwnMeansFirst(ordered: seq<Package>, known: set<Name>)
    requires Distinct(Names(ordered)) && OwnFirst(ordered, known) && forall n :: n in Names(ordered) ==> n in known
    ensures DependenciesFirst(GraphOf(ordered), Names(ordered))
  {
    hide Distinct;
    var g, names := GraphOf(ordered), Names(ordered);
    forall i, d | 0 <= i < |names| && Edge(g, names[i], d) ensures d in names[..i] {
      FoundByName(ordered, i);
      assert d in ordered[i].dependencies;
    }
  }

  lemma AllOrdered(walk: Walk)
    requires walk.Valid([]) && forall j :: 0 <= j < |walk.packages| ==> walk.IsDone(walk.packages[j].name)
    ensures var names := Names(walk.ordered);
      && Distinct(names) && (forall p :: p in walk.ordered ==> p in walk.packages)
      && (forall n :: n in names <==> n in Names(walk.packages))
      && DependenciesFirst(GraphOf(walk.ordered), names) && !HasCycle(GraphOf(walk.ordered))
  {
    hide HasCycle, DependenciesFirst, Distinct;
    var names := Names(walk.ordered);
    forall n | n in Names(walk.packages) ensures n in names {
      var j :| 0 <= j < |walk.packages| && Names(walk.packages)[j] == n;
      assert walk.IsDone(walk.packages[j].name);
    }
    OwnMeansFirst(walk.ordered, walk.graph.Keys);
    OrderedIsAcyclic(GraphOf(walk.ordered), names);
  }

  lemma {:induction false} OnceEach(s: seq<Package>, e: Package)
    requires Distinct(Names(s))
    ensures multiset(s)[e] == if e in s then 1 else 0
  {
    if s != [] {
      var front, last := s[..|s| - 1], s[|s| - 1];
      assert s == front + [last];
      assert Names(front) == Names(s)[..|front|];
      OnceEach(front, e);
      forall i | 0 <= i < |front| ensures front[i] != last {
        assert Names(s)[i] != Names(s)[|front|];
      }
    }
  }

  lemma SamePackages(packages: seq<Package>, ordered: seq<Package>)
    requires Distinct(Names(packages)) && Distinct(Names(ordered))
    requires forall n :: n in Names(packages) <==> n in Names(ordered)
    requires forall p :: p in ordered ==> p in packages
    ensures multiset(ordered) == multiset(packages) && GraphOf(ordered) == GraphOf(packages)
  {
    hide Distinct, ByName;
    forall e ensures multiset(ordered)[e] == multiset(packages)[e] {
      OnceEach(packages, e);
      OnceEach(ordered, e);
      if e in packages { AlsoOrdered(packages, ordered, e); }
    }
    forall n | n in ByName(packages) ensures n in ByName(ordered) && ByName(ordered)[n] == ByName(packages)[n] {
      var e := ByName(packages)[n];
      AlsoOrdered(packages, ordered, e);
      var i :| 0 <= i < |ordered| && ordered[i] == e;
      FoundByName(ordered, i);
    }
  }

  lemma AlsoOrdered(packages: seq<Package>, ordered: seq<Package>, e: Package)
    requires Distinct(Names(packages)) && e in packages && forall p :: p in ordered ==> p in packages
    requires forall n :: n in Names(packages) <==> n in Names(ordered)
    ensures e in ordered
  {
    hide Distinct, ByName;
    var i :| 0 <= i < |packages| && packages[i] == e;
    FoundByName(packages, i);
    assert Names(packages)[i] == e.name;
    var j :| 0 <= j < |ordered| && Names(ordered)[j] == e.name;
    assert ordered[j] in packages;
    var k :| 0 <= k < |packages| && packages[k] == ordered[j];
    FoundByName(packages, k);
  }
}
