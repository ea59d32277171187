/** Directed graphs over paths, and what can be reached in them. */
module Reachability {
  import opened SeqMultisets

  type Path = string

  /** The edges out of each node; a node that is not a key has none. */
  type Graph = map<Path, set<Path>>

  function Succ(g: Graph, n: Path): set<Path> {
    if n in g then g[n] else {}
  }

  ghost predicate IsWalk(g: Graph, p: seq<Path>) {
    p != [] && forall i | 0 < i < |p| :: p[i] in Succ(g, p[i-1])
  }

  ghost predicate Joins(g: Graph, p: seq<Path>, a: Path, b: Path) {
    IsWalk(g, p) && p[0] == a && p[|p|-1] == b
  }

  /** Some walk of any length leads from one node to the other. */
  ghost predicate Reaches(g: Graph, a: Path, b: Path) {
    exists p :: Joins(g, p, a, b)
  }

  /** The same with one step at least. */
  ghost predicate Follows(g: Graph, a: Path, b: Path) {
    exists c :: c in Succ(g, a) && Reaches(g, c, b)
  }

  lemma ReachesItself(g: Graph, a: Path)
    ensures Reaches(g, a, a)
  {
    assert Joins(g, [a], a, a);
  }

  lemma ReachesVia(g: Graph, a: Path, c: Path, b: Path)
    requires c in Succ(g, a) && Reaches(g, c, b)
    ensures Reaches(g, a, b) && Follows(g, a, b)
  {
    var p :| Joins(g, p, c, b);
    assert Joins(g, [a] + p, a, b);
  }

  ghost predicate Closed(g: Graph, s: set<Path>) {
    forall x | x in s :: Succ(g, x) <= s
  }

  lemma {:induction false} WalkStays(g: Graph, s: set<Path>, p: seq<Path>)
    requires Closed(g, s) && IsWalk(g, p) && p[0] in s
    ensures p[|p|-1] in s
    decreases |p|
  {
    if |p| == 1 {
    } else {
      var q := p[1..];
      assert p[1] in Succ(g, p[0]) && q[0] == p[1];
      assert forall i | 0 < i < |q| :: q[i] == p[i+1] && q[i-1] == p[i];
      WalkStays(g, s, q);
    }
  }

  /** Nothing leads out of a closed set. */
  lemma ClosedStays(g: Graph, s: set<Path>, a: Path, b: Path)
    requires Closed(g, s) && a in s && Reaches(g, a, b)
    ensures b in s
  {
    var p :| Joins(g, p, a, b);
    WalkStays(g, s, p);
  }

  ghost predicate Mirrors(g: Graph, r: Graph) {
    forall x, y :: y in Succ(g, x) <==> x in Succ(r, y)
  }

  lemma ReachesBack(g: Graph, r: Graph, a: Path, b: Path)
    requires Mirrors(g, r) && Reaches(g, a, b)
    ensures Reaches(r, b, a)
  {
    var p :| Joins(g, p, a, b);
    var q := seq(|p|, i requires 0 <= i < |p| => p[|p|-1-i]);
    forall i | 0 < i < |q| ensures q[i] in Succ(r, q[i-1]) {
      assert p[|p|-i] in Succ(g, p[|p|-i-1]);
    }
    assert Joins(r, q, b, a);
  }

  // ------------------------------------------------------------ going through a graph

  /** A graph whose dependencies are all nodes. */
  ghost predicate IsGraph(g: Graph) {
    forall n | n in g :: g[n] <= g.Keys
  }

  ghost predicate Lists(s: seq<Path>, xs: set<Path>) {
    Members(s) == xs && forall i, j | 0 <= i < j < |s| :: s[i] != s[j]
  }

  /** The order in which the dependencies of each node are visited. */
  type Order = map<Path, seq<Path>>

  /** One way of going through the nodes, and through the dependencies of each. */
  ghost predicate Enumerates(g: Graph, ns: seq<Path>, ord: Order) {
    Lists(ns, g.Keys) && ord.Keys == g.Keys && forall n | n in g :: Lists(ord[n], g[n])
  }
}
