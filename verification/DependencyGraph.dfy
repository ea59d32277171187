/**
 The build dependency graph of python/yb/dependency_graph.py: nodes named by canonical path, the two
 edge sets of every node, and the three depth-first searches. A search visits a set in any order.
 */
module DependencyGraph {
  import opened Reachability

  // ------------------------------------------------------------ what a search adds

  /** Every node that a search added has all its successors in. */
  ghost predicate Closes(g: Graph, before: set<Path>, after: set<Path>) {
    forall x | x in after - before :: Succ(g, x) <= after
  }

  ghost predicate AllFollow(g: Graph, root: Path, s: set<Path>) {
    forall x | x in s :: Follows(g, root, x)
  }

  lemma ClosesMore(g: Graph, a: set<Path>, b: set<Path>, c: set<Path>)
    requires a <= b <= c && Closes(g, a, b) && Closes(g, b, c)
    ensures Closes(g, a, c)
  {
    forall x | x in c - a ensures Succ(g, x) <= c {
      if x in b {
        assert x in b - a;
      } else {
        assert x in c - b;
      }
    }
  }

  lemma FollowVia(g: Graph, root: Path, dep: Path, s: set<Path>)
    requires dep in Succ(g, root) && forall x | x in s :: x == dep || Follows(g, dep, x)
    ensures AllFollow(g, root, s)
  {
    forall x | x in s ensures Follows(g, root, x) {
      if x == dep {
        ReachesItself(g, dep);
        ReachesVia(g, root, dep, dep);
      } else {
        var c :| c in Succ(g, dep) && Reaches(g, c, x);
        ReachesVia(g, dep, c, x);
        ReachesVia(g, root, dep, x);
      }
    }
  }

  /** A closed set of followers that holds every successor is the set of all followers. */
  lemma FollowersAre(g: Graph, root: Path, s: set<Path>)
    requires Closed(g, s) && Succ(g, root) <= s && AllFollow(g, root, s)
    ensures forall x :: x in s <==> Follows(g, root, x)
  {
    forall x | Follows(g, root, x) ensures x in s {
      var c :| c in Succ(g, root) && Reaches(g, c, x);
      ClosedStays(g, s, c, x);
    }
  }

  // -------------------------------------------------------------- get_recursive_deps

  class DepsWalk {
    const deps: Graph
    var found: set<Path>

    constructor (deps: Graph)
      ensures this.deps == deps && found == {}
    {
      this.deps, found := deps, {};
    }

    method Walk(node: Path, addSelf: bool)
      requires addSelf ==> node !in found
      modifies this
      ensures old(found) <= found && Succ(deps, node) <= found && (addSelf ==> node in found)
      ensures Closes(deps, old(found), found)
      ensures AllFollow(deps, node, found - old(found) - if addSelf then {node} else {})
      decreases deps.Keys - found, !addSelf
    {
      if addSelf {
        found := found + {node};
      }
      ghost var start := found;
      var todo := Succ(deps, node);
      while todo != {}
        invariant start <= found && todo <= Succ(deps, node) && Succ(deps, node) - todo <= found
        invariant Closes(deps, start, found) && AllFollow(deps, node, found - start)
      {
        var dep :| dep in todo;
        todo := todo - {dep};
        if dep !in found {
          ghost var before := found;
          Walk(dep, true);
          ClosesMore(deps, start, before, found);
          FollowVia(deps, node, dep, found - before);
        }
      }
    }
  }

  /** All dependencies of a node: what follows it in one or more steps, so itself just when it is on a cycle. */
  method RecursiveDeps(deps: Graph, node: Path) returns (r: set<Path>)
    ensures forall x :: x in r <==> Follows(deps, node, x)
  {
    var w := new DepsWalk(deps);
    w.Walk(node, false);
    r := w.found;
    FollowersAre(deps, node, r);
  }

  // -------------------------------------------------------- get_recursive_cmake_deps

  class TargetWalk {
    const deps: Graph
    var visited: set<Path>
    var result: set<Path>

    constructor (deps: Graph)
      ensures this.deps == deps && visited == {} && result == {}
    {
      this.deps, visited, result := deps, {}, {};
    }

    method Walk(target: Path, addThis: bool)
      modifies this
      ensures old(visited) <= visited && target in visited
      ensures Closes(deps, old(visited), visited)
      ensures AllFollow(deps, target, visited - old(visited) - {target})
      ensures result == old(result) + (visited - old(visited) - if addThis then {} else {target})
      decreases deps.Keys - visited
    {
      if target in visited {
        return;
      }
      visited := visited + {target};
      if addThis {
        result := result + {target};
      }
      ghost var start, had := visited, result;
      var todo := Succ(deps, target);
      while todo != {}
        invariant start <= visited && todo <= Succ(deps, target) && Succ(deps, target) - todo <= visited
        invariant Closes(deps, start, visited) && AllFollow(deps, target, visited - start)
        invariant result == had + (visited - start)
      {
        var dep :| dep in todo;
        todo := todo - {dep};
        ghost var before := visited;
        Walk(dep, true);
        ClosesMore(deps, start, before, visited);
        FollowVia(deps, target, dep, visited - before);
      }
    }
  }

  /** All targets that a target depends on, never itself. */
  method RecursiveCmakeDeps(deps: Graph, target: Path) returns (r: set<Path>)
    ensures forall x :: x in r <==> x != target && Follows(deps, target, x)
  {
    var w := new TargetWalk(deps);
    w.Walk(target, false);
    r := w.result;
    ReachedAre(deps, target, w.visited);
  }

  lemma ReachedAre(g: Graph, root: Path, s: set<Path>)
    requires Closed(g, s) && root in s && AllFollow(g, root, s - {root})
    ensures forall x :: x in s <==> x == root || Follows(g, root, x)
    ensures forall x :: x in s <==> Reaches(g, root, x)
  {
    forall x ensures x in s <==> x == root || Follows(g, root, x)
             ensures x in s <==> Reaches(g, root, x) {
      if x == root {
        ReachesItself(g, root);
      } else if x in s {
        assert x in s - {root};
      }
      if Follows(g, root, x) {
        var c :| c in Succ(g, root) && Reaches(g, c, x);
        ReachesVia(g, root, c, x);
      }
      if Reaches(g, root, x) {
        ClosedStays(g, s, root, x);
      }
    }
  }

  // ------------------------------------------------------------ find_affected_nodes

  const NODE_TYPE_ANY := "any"

  ghost predicate ReachedFrom(g: Graph, start: set<Path>, x: Path) {
    exists s :: s in start && Reaches(g, s, x)
  }

  class AffectedSearch {
    const reverseDeps: Graph
    const nodeType: Path -> string
    const startNodes: set<Path>
    const requested: string
    var results: set<Path>
    var visited: set<Path>

    constructor (reverseDeps: Graph, nodeType: Path -> string, startNodes: set<Path>, requested: string)
      ensures this.reverseDeps == reverseDeps && this.nodeType == nodeType
      ensures this.startNodes == startNodes && this.requested == requested
      ensures results == {} && visited == {}
    {
      this.reverseDeps, this.nodeType, this.startNodes, this.requested :=
        reverseDeps, nodeType, startNodes, requested;
      results, visited := {}, {};
    }

    predicate Wanted(x: Path) {
      (requested == NODE_TYPE_ANY || nodeType(x) == requested) && x !in startNodes
    }

    ghost predicate Picked()
      reads this
    {
      forall x :: x in results <==> x in visited && Wanted(x)
    }

    method Dfs(node: Path)
      requires Picked()
      modifies this
      ensures Picked() && old(visited) <= visited && node in visited
      ensures Closes(reverseDeps, old(visited), visited)
      ensures AllFollow(reverseDeps, node, visited - old(visited) - {node})
      decreases reverseDeps.Keys - visited
    {
      if Wanted(node) {
        results := results + {node};
      }
      if node in visited {
        return;
      }
      visited := visited + {node};
      ghost var start := visited;
      var todo := Succ(reverseDeps, node);
      while todo != {}
        invariant start <= visited && todo <= Succ(reverseDeps, node) && Succ(reverseDeps, node) - todo <= visited
        invariant Closes(reverseDeps, start, visited) && AllFollow(reverseDeps, node, visited - start) && Picked()
      {
        var dep :| dep in todo;
        todo := todo - {dep};
        ghost var before := visited;
        Dfs(dep);
        ClosesMore(reverseDeps, start, before, visited);
        FollowVia(reverseDeps, node, dep, visited - before);
      }
    }

    method Run()
      requires results == {} && visited == {}
      modifies this
      ensures Picked() && startNodes <= visited && Closed(reverseDeps, visited)
      ensures forall x | x in visited :: ReachedFrom(reverseDeps, startNodes, x)
    {
      var todo := startNodes;
      while todo != {}
        invariant todo <= startNodes && startNodes - todo <= visited && Picked()
        invariant Closes(reverseDeps, {}, visited)
        invariant forall x | x in visited :: ReachedFrom(reverseDeps, startNodes, x)
      {
        var node :| node in todo;
        todo := todo - {node};
        ghost var before := visited;
        Dfs(node);
        ClosesMore(reverseDeps, {}, before, visited);
        ReachedMore(reverseDeps, startNodes, node, visited - before);
      }
    }
  }

  lemma ReachedMore(g: Graph, start: set<Path>, node: Path, s: set<Path>)
    requires node in start && AllFollow(g, node, s - {node})
    ensures forall x | x in s :: ReachedFrom(g, start, x)
  {
    forall x | x in s ensures ReachedFrom(g, start, x) {
      if x == node {
        ReachesItself(g, node);
      } else {
        assert x in s - {node};
        var c :| c in Succ(g, node) && Reaches(g, c, x);
        ReachesVia(g, node, c, x);
      }
    }
  }

  /** The nodes of the requested type that the start nodes reach against the dependencies, less the start nodes. */
  method FindAffectedNodes(reverseDeps: Graph, nodeType: Path -> string, startNodes: set<Path>, requested: string)
    returns (r: set<Path>)
    ensures forall x :: x in r <==>
              && ReachedFrom(reverseDeps, startNodes, x)
              && (requested == NODE_TYPE_ANY || nodeType(x) == requested)
              && x !in startNodes
  {
    var search := new AffectedSearch(reverseDeps, nodeType, startNodes, requested);
    search.Run();
    r := search.results;
    ghost var visited := search.visited;
    forall x | ReachedFrom(reverseDeps, startNodes, x) ensures x in visited {
      var s :| s in startNodes && Reaches(reverseDeps, s, x);
      ClosedStays(reverseDeps, visited, s, x);
    }
  }

  // -------------------------------------------------------------------- the graph itself

  /** What every graph keeps: edges between its nodes in both directions, none from a node to itself. */
  ghost predicate WellFormed(canonical: Path -> Path, deps: Graph, reverseDeps: Graph) {
    && IsGraph(deps) && deps.Keys == reverseDeps.Keys && Mirrors(deps, reverseDeps)
    && forall n | n in deps :: n !in deps[n] && canonical(n) == n
  }

  function WithNode(g: Graph, n: Path): Graph {
    if n in g then g else g[n := {}]
  }

  function WithEdge(g: Graph, a: Path, b: Path): Graph {
    g[a := Succ(g, a) + {b}]
  }

  lemma NodeKeeps(canonical: Path -> Path, deps: Graph, reverseDeps: Graph, n: Path)
    requires WellFormed(canonical, deps, reverseDeps) && canonical(n) == n
    ensures WellFormed(canonical, WithNode(deps, n), WithNode(reverseDeps, n))
    ensures forall x :: Succ(WithNode(deps, n), x) == Succ(deps, x)
  {
    assert forall x :: Succ(WithNode(deps, n), x) == Succ(deps, x);
    assert forall x :: Succ(WithNode(reverseDeps, n), x) == Succ(reverseDeps, x);
  }

  lemma EdgeKeeps(canonical: Path -> Path, deps: Graph, reverseDeps: Graph, a: Path, b: Path)
    requires WellFormed(canonical, deps, reverseDeps) && a in deps && b in deps && a != b
    ensures WellFormed(canonical, WithEdge(deps, a, b), WithEdge(reverseDeps, b, a))
  {
    var g, r := WithEdge(deps, a, b), WithEdge(reverseDeps, b, a);
    forall x, y ensures y in Succ(g, x) <==> x in Succ(r, y) {
      assert y in Succ(deps, x) <==> x in Succ(reverseDeps, y);
    }
  }

  class BuildGraph {
    const canonical: Path -> Path
    var deps: Graph
    var reverseDeps: Graph

    ghost predicate Valid()
      reads this
    {
      WellFormed(canonical, deps, reverseDeps)
    }

    constructor (canonical: Path -> Path)
      ensures Valid() && this.canonical == canonical && deps == map[]
    {
      this.canonical, deps, reverseDeps := canonical, map[], map[];
    }

    method FindOrCreateNode(path: Path) returns (node: Path)
      requires Valid() && canonical(canonical(path)) == canonical(path)
      modifies this
      ensures Valid() && node == canonical(path) && deps == WithNode(old(deps), node)
    {
      node := canonical(path);
      NodeKeeps(canonical, deps, reverseDeps, node);
      if node !in deps {
        deps := deps[node := {}];
        reverseDeps := reverseDeps[node := {}];
      }
    }

    /** A node cannot depend on itself: the assertion fails and nothing changes. */
    method AddDependency(node: Path, dep: Path) returns (ok: bool)
      requires Valid() && node in deps && dep in deps
      modifies this
      ensures Valid() && ok == (node != dep)
      ensures deps == if ok then WithEdge(old(deps), node, dep) else old(deps)
    {
      ok := node != dep;
      if ok {
        EdgeKeeps(canonical, deps, reverseDeps, node, dep);
        deps := deps[node := deps[node] + {dep}];
        reverseDeps := reverseDeps[dep := reverseDeps[dep] + {node}];
      }
    }

    /** The nodes of a type that depend, directly or not, on a start node and are not start nodes. */
    method AffectedBy(nodeType: Path -> string, startNodes: set<Path>, requested: string) returns (r: set<Path>)
      requires Valid()
      ensures forall x :: x in r <==>
                && (exists s :: s in startNodes && Reaches(deps, x, s))
                && (requested == NODE_TYPE_ANY || nodeType(x) == requested)
                && x !in startNodes
    {
      r := FindAffectedNodes(reverseDeps, nodeType, startNodes, requested);
      forall x ensures ReachedFrom(reverseDeps, startNodes, x) <==> exists s :: s in startNodes && Reaches(deps, x, s) {
        DependsOnStart(deps, reverseDeps, startNodes, x);
      }
    }
  }

  lemma DependsOnStart(deps: Graph, reverseDeps: Graph, startNodes: set<Path>, x: Path)
    requires Mirrors(deps, reverseDeps)
    ensures ReachedFrom(reverseDeps, startNodes, x) <==> exists s :: s in startNodes && Reaches(deps, x, s)
  {
    assert Mirrors(reverseDeps, deps);
    if ReachedFrom(reverseDeps, startNodes, x) {
      var s :| s in startNodes && Reaches(reverseDeps, s, x);
      ReachesBack(reverseDeps, deps, s, x);
    }
    if s :| s in startNodes && Reaches(deps, x, s) {
      ReachesBack(deps, reverseDeps, x, s);
    }
  }
}
