/** The workspace check for dependency cycles: a depth-first walk that reports the cycle it finds. */
module AcyclicGraph {
  import opened Wrappers
  import opened Sequences
  import opened DependencyGraph

  class Walk {
    const manifests: Graph
    var visiting: set<Name>
    var visited: set<Name>
    /** The packages in the order they were finished: what makes the visited ones acyclic. */
    ghost var finished: seq<Name>

    constructor (manifests: Graph)
      ensures this.manifests == manifests && Valid([]) && visited == {}
    {
      this.manifests := manifests;
      visiting, visited, finished := {}, {}, [];
    }

    ghost predicate Valid(path: seq<Name>)
      reads this
    {
      && (path == [] || IsPath(manifests, path))
      && visiting == (set n | n in path)
      && visited == (set n | n in finished)
      && visiting !! visited
      && visiting <= manifests.Keys && visited <= manifests.Keys
      && Distinct(finished) && DependenciesFirst(manifests, finished)
    }

    /** Walks one branch; a package found on it again is reported with the closed path to itself. */
    method Visit(name: Name, path: seq<Name>) returns (cycle: Option<seq<Name>>)
      requires Valid(path) && name in manifests && (path != [] ==> Edge(manifests, path[|path| - 1], name))
      modifies this
      ensures cycle.Some? ==> IsCycle(manifests, cycle.value)
      ensures cycle.None? ==> Valid(path) && name in visited && old(visited) <= visited
      decreases manifests.Keys - visiting - visited
    {
      hide IsCycle, IsPath, Distinct, DependenciesFirst, Edge;
      if name in visiting {
        BranchCloses(manifests, path, name);
        return Some(path[IndexOf(path, name)..] + [name]);
      }
      if name in visited { return None; }
      Enter(name, path);
      var here := path + [name];
      var dependencies := manifests[name];
      for i := 0 to |dependencies|
        invariant Valid(here) && old(visited) <= visited && visiting == old(visiting) + {name}
        invariant forall d :: d in dependencies[..i] && d in manifests ==> d in visited
      {
        var dependency := dependencies[i];
        if dependency in manifests {
          IsEdge(name, i);
          assert manifests.Keys - visiting - visited <= manifests.Keys - old(visiting) - old(visited) - {name};
          assert name in manifests.Keys - old(visiting) - old(visited);
          cycle := Visit(dependency, here);
          if cycle.Some? { return; }
        }
      }
      assert dependencies[..|dependencies|] == dependencies;
      Leave(name, path);
      cycle := None;
    }

    lemma IsEdge(name: Name, i: nat)
      requires name in manifests && i < |manifests[name]| && manifests[name][i] in manifests
      ensures Edge(manifests, name, manifests[name][i])
    {
    }

    method Enter(name: Name, path: seq<Name>)
      requires Valid(path) && name in manifests && (path != [] ==> Edge(manifests, path[|path| - 1], name))
      requires name !in visiting && name !in visited
      modifies `visiting
      ensures Valid(path + [name]) && visiting == old(visiting) + {name}
    {
      hide IsPath, Distinct, DependenciesFirst, Edge;
      PathMore(manifests, path, name);
      visiting := visiting + {name};
    }

    method Leave(name: Name, path: seq<Name>)
      requires Valid(path + [name]) && name !in path
      requires forall d :: d in manifests && d in manifests[name] ==> d in visited
      modifies this
      ensures Valid(path) && visited == old(visited) + {name}
    {
      hide IsPath, Distinct, DependenciesFirst;
      PathPrefix(manifests, path, name);
      assert name in path + [name] && name in visiting && name !in visited;
      OrderMore(manifests, finished, name);
      visiting := visiting - {name};
      visited := visited + {name};
      finished := finished + [name];
    }
  }

  /** Reports a closed path of dependencies exactly when there is one. `names` are the keys, in the map's order. */
  method ValidateAcyclicGraph(manifests: Graph, names: seq<Name>) returns (cycle: Option<seq<Name>>)
    requires forall n :: n in names <==> n in manifests
    ensures cycle.Some? ==> IsCycle(manifests, cycle.value)
    ensures cycle.Some? <==> HasCycle(manifests)
  {
    hide IsCycle;
    var walk := new Walk(manifests);
    for i := 0 to |names|
      invariant walk.Valid([]) && walk.manifests == manifests && fresh(walk)
      invariant forall j :: 0 <= j < i ==> names[j] in walk.visited
    {
      cycle := walk.Visit(names[i], []);
      if cycle.Some? { return; }
    }
    cycle := None;
    OrderedIsAcyclic(manifests, walk.finished);
  }
}
