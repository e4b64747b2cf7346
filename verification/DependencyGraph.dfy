/**
 Dependency graphs between named packages, and what the repository's two
 depth-first walks over them share. A walk keeps the branch it is on, which is a
 path: meeting a package of it again closes a cycle, and a package is finished
 once all it depends on is. An order in which every package comes after those it
 depends on leaves room for no cycle.
 */
module DependencyGraph {
  import opened Sequences

  type Name = string

  /** The dependencies each package declares; those on packages outside the graph are no edges. */
  type Graph = map<Name, seq<Name>>

  predicate Edge(g: Graph, a: Name, b: Name) {
    a in g && b in g && b in g[a]
  }

  ghost predicate IsPath(g: Graph, p: seq<Name>) {
    && p != []
    && (forall i :: 0 <= i < |p| ==> p[i] in g)
    && (forall i :: 0 <= i < |p| - 1 ==> Edge(g, p[i], p[i + 1]))
  }

  /** A closed path: it ends where it began, and goes somewhere in between. */
  ghost predicate IsCycle(g: Graph, p: seq<Name>) {
    IsPath(g, p) && |p| >= 2 && p[0] == p[|p| - 1]
  }

  ghost predicate HasCycle(g: Graph) {
    exists p :: IsCycle(g, p)
  }

  /** Every package of `order` comes after the packages it depends on. */
  ghost predicate DependenciesFirst(g: Graph, order: seq<Name>) {
    forall i, d :: 0 <= i < |order| && Edge(g, order[i], d) ==> d in order[..i]
  }

  function IndexOf(s: seq<Name>, n: Name): (i: nat)
    requires n in s
    ensures i < |s| && s[i] == n && n !in s[..i]
  {
    if s[0] == n then 0 else 1 + IndexOf(s[1..], n)
  }

  /** Along a path through an ordered set of packages, the places in the order only go down. */
  lemma {:induction false} PathGoesDown(g: Graph, order: seq<Name>, p: seq<Name>)
    requires IsPath(g, p) && DependenciesFirst(g, order) && Distinct(order) && p[0] in order
    ensures p[|p| - 1] in order
    ensures |p| >= 2 ==> IndexOf(order, p[|p| - 1]) < IndexOf(order, p[0])
    decreases |p|
  {
    if |p| >= 2 {
      assert Edge(g, p[0], p[1]);
      var i := IndexOf(order, p[0]);
      assert p[1] in order[..i];
      var j :| 0 <= j < i && order[j] == p[1];
      assert IndexOf(order, p[1]) == j;
      PathGoesDown(g, order, p[1..]);
    }
  }

  /** An order with dependencies first, over all packages, exists only without cycles. */
  lemma {:induction false} OrderedIsAcyclic(g: Graph, order: seq<Name>)
    requires DependenciesFirst(g, order) && Distinct(order) && forall n :: n in g <==> n in order
    ensures !HasCycle(g)
  {
    forall p | IsCycle(g, p) ensures false {
      PathGoesDown(g, order, p);
    }
  }

  /** A package on the current branch that is reached again closes a cycle. */
  lemma BranchCloses(g: Graph, branch: seq<Name>, n: Name)
    requires n in branch && IsPath(g, branch) && Edge(g, branch[|branch| - 1], n)
    ensures IsCycle(g, branch[IndexOf(branch, n)..] + [n])
  {
    hide Edge;
    var rest := branch[IndexOf(branch, n)..];
    assert rest[|rest| - 1] == branch[|branch| - 1];
    PathMore(g, rest, n);
  }

  lemma PathPrefix(g: Graph, p: seq<Name>, n: Name)
    requires IsPath(g, p + [n])
    ensures p == [] || IsPath(g, p)
  {
    if p != [] {
      forall i | 0 <= i < |p| - 1 ensures Edge(g, p[i], p[i + 1]) {
        assert Edge(g, (p + [n])[i], (p + [n])[i + 1]);
      }
      assert forall i :: 0 <= i < |p| ==> p[i] == (p + [n])[i];
    }
  }

  lemma PathMore(g: Graph, p: seq<Name>, n: Name)
    requires n in g && (p == [] || (IsPath(g, p) && Edge(g, p[|p| - 1], n)))
    ensures IsPath(g, p + [n])
  {
  }

  /** A package goes behind everything it depends on. */
  lemma OrderMore(g: Graph, order: seq<Name>, n: Name)
    requires Distinct(order) && DependenciesFirst(g, order) && n !in order
    requires forall d :: Edge(g, n, d) ==> d in order
    ensures Distinct(order + [n]) && DependenciesFirst(g, order + [n])
  {
    forall i, d | 0 <= i < |order + [n]| && Edge(g, (order + [n])[i], d) ensures d in (order + [n])[..i] {
      assert (order + [n])[..i] == order[..i];
      if i == |order| {
        assert order[..i] == order;
      }
    }
  }
}
