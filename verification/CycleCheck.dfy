/**
 The check for circular dependencies in python/yb/dependency_graph.py. As it is written, a dependency
 that was visited before and is not on the stack ends the walk of the node, and the dependencies behind
 it are not looked at. `written` selects that form; without it the walk goes on with the next one.
 */
module CycleCheck {
  import opened Options
  import opened Reachability
  import opened SeqMultisets

  /** The visited nodes, or the stack when the check raised. */
  datatype Outcome = Done(visited: set<Path>) | Raised(stack: seq<Path>)

  function Walk(ord: Order, written: bool, n: Path, visited: set<Path>, stack: seq<Path>): (r: Outcome)
    ensures r.Done? ==> visited <= r.visited && n in r.visited
    decreases ord.Keys - visited, 0
  {
    if n in visited then Done(visited)
    else if n !in ord then Done(visited + {n})
    else WalkDeps(ord, written, ord[n], visited + {n}, stack + [n])
  }

  function WalkDeps(ord: Order, written: bool, ds: seq<Path>, visited: set<Path>, stack: seq<Path>): (r: Outcome)
    ensures r.Done? ==> visited <= r.visited
    decreases ord.Keys - visited, |ds| + 1
  {
    if ds == [] then Done(visited)
    else if ds[0] in visited then
      if ds[0] in stack then Raised(stack)
      else if written then Done(visited)
      else WalkDeps(ord, written, ds[1..], visited, stack)
    else
      var r := Walk(ord, written, ds[0], visited, stack);
      if r.Raised? then r else WalkDeps(ord, written, ds[1..], r.visited, stack)
  }

  function WalkAll(ord: Order, written: bool, ns: seq<Path>, visited: set<Path>): Outcome {
    if ns == [] then Done(visited)
    else
      var r := Walk(ord, written, ns[0], visited, []);
      if r.Raised? then r else WalkAll(ord, written, ns[1..], r.visited)
  }

  function Check(ord: Order, written: bool, ns: seq<Path>): Outcome {
    WalkAll(ord, written, ns, {})
  }

  ghost predicate OnCycle(g: Graph, n: Path) {
    Follows(g, n, n)
  }

  ghost predicate Cyclic(g: Graph) {
    exists n :: OnCycle(g, n)
  }

  // -------------------------------------------------- a raise means a cycle, in either form

  ghost predicate Ordered(g: Graph, ord: Order) {
    forall n | n in ord :: Members(ord[n]) <= Succ(g, n)
  }

  /** The stack of a raise: a chain of dependencies whose last node depends on one of them. */
  ghost predicate ClosesLoop(g: Graph, stack: seq<Path>) {
    IsWalk(g, stack) && exists d :: d in stack && d in Succ(g, stack[|stack|-1])
  }

  lemma {:induction false} WalkSound(g: Graph, ord: Order, written: bool, n: Path, visited: set<Path>, stack: seq<Path>)
    requires Ordered(g, ord) && (stack == [] || (IsWalk(g, stack) && n in Succ(g, stack[|stack|-1])))
    ensures var r := Walk(ord, written, n, visited, stack);
            r.Raised? ==> ClosesLoop(g, r.stack)
    decreases ord.Keys - visited, 0
  {
    if n in visited || n !in ord {
    } else {
      assert IsWalk(g, stack + [n]);
      DepsSound(g, ord, written, n, ord[n], visited + {n}, stack + [n]);
    }
  }

  lemma {:induction false} DepsSound(g: Graph, ord: Order, written: bool, n: Path, ds: seq<Path>,
                                     visited: set<Path>, stack: seq<Path>)
    requires Ordered(g, ord) && IsWalk(g, stack) && stack[|stack|-1] == n && Members(ds) <= Succ(g, n)
    ensures var r := WalkDeps(ord, written, ds, visited, stack);
            r.Raised? ==> ClosesLoop(g, r.stack)
    decreases ord.Keys - visited, |ds| + 1
  {
    if ds == [] {
    } else {
      assert ds[0] in Members(ds) && Members(ds[1..]) <= Members(ds);
      if ds[0] in visited {
        DepsSound(g, ord, written, n, ds[1..], visited, stack);
      } else {
        WalkSound(g, ord, written, ds[0], visited, stack);
        var r := Walk(ord, written, ds[0], visited, stack);
        if r.Done? {
          DepsSound(g, ord, written, n, ds[1..], r.visited, stack);
        }
      }
    }
  }

  lemma LoopIsCycle(g: Graph, stack: seq<Path>)
    requires ClosesLoop(g, stack)
    ensures Cyclic(g)
  {
    var d :| d in stack && d in Succ(g, stack[|stack|-1]);
    var i :| 0 <= i < |stack| && stack[i] == d;
    var last := stack[|stack|-1];
    assert Joins(g, stack[i..], d, last);
    ReachesVia(g, last, d, last);
    assert OnCycle(g, last);
  }

  lemma {:induction false} AllSound(g: Graph, ord: Order, written: bool, ns: seq<Path>, visited: set<Path>)
    requires Ordered(g, ord)
    ensures var r := WalkAll(ord, written, ns, visited);
            r.Raised? ==> ClosesLoop(g, r.stack)
    decreases |ns|
  {
    if ns == [] {
    } else {
      WalkSound(g, ord, written, ns[0], visited, []);
      var r := Walk(ord, written, ns[0], visited, []);
      if r.Done? {
        AllSound(g, ord, written, ns[1..], r.visited);
      }
    }
  }

  /** Whatever the order, a raise shows a chain of dependencies that closes, so the graph is cyclic. */
  lemma RaiseIsSound(g: Graph, ns: seq<Path>, ord: Order, written: bool)
    requires Enumerates(g, ns, ord)
    ensures var r := Check(ord, written, ns);
            r.Raised? ==> ClosesLoop(g, r.stack) && Cyclic(g)
  {
    AllSound(g, ord, written, ns, {});
    var r := Check(ord, written, ns);
    if r.Raised? {
      LoopIsCycle(g, r.stack);
    }
  }

  // ---------------------------------------------- without the early end, no raise means no cycle

  /** Nodes that are done with: what they lead to is among them, and none is on a cycle. */
  ghost predicate Settled(g: Graph, f: set<Path>) {
    Closed(g, f) && forall x | x in f :: !OnCycle(g, x)
  }

  lemma SettleOneMore(g: Graph, f: set<Path>, n: Path)
    requires Settled(g, f) && n !in f && Succ(g, n) <= f
    ensures Settled(g, f + {n})
  {
    if OnCycle(g, n) {
      var c :| c in Succ(g, n) && Reaches(g, c, n);
      ClosedStays(g, f, c, n);
    }
  }

  ghost predicate Covers(g: Graph, ord: Order) {
    ord.Keys == g.Keys && forall n | n in g :: Members(ord[n]) == g[n]
  }

  lemma {:induction false} WalkSettles(g: Graph, ord: Order, n: Path, visited: set<Path>, stack: seq<Path>)
    requires Covers(g, ord) && Members(stack) <= visited && Settled(g, visited - Members(stack))
    ensures var r := Walk(ord, false, n, visited, stack);
            r.Done? ==> Settled(g, r.visited - Members(stack))
    decreases ord.Keys - visited, 0
  {
    var f := visited - Members(stack);
    if n !in visited {
      if n !in ord {
        SettleOneMore(g, f, n);
        assert visited + {n} - Members(stack) == f + {n};
      } else {
        MembersSnoc(stack, n);
        assert visited + {n} - Members(stack + [n]) == f;
        DepsSettle(g, ord, ord[n], visited + {n}, stack + [n]);
        var r := WalkDeps(ord, false, ord[n], visited + {n}, stack + [n]);
        if r.Done? {
          var f' := r.visited - Members(stack + [n]);
          SettleOneMore(g, f', n);
          assert r.visited - Members(stack) == f' + {n};
        }
      }
    }
  }

  lemma {:induction false} DepsSettle(g: Graph, ord: Order, ds: seq<Path>, visited: set<Path>, stack: seq<Path>)
    requires Covers(g, ord) && Members(stack) <= visited && Settled(g, visited - Members(stack))
    ensures var r := WalkDeps(ord, false, ds, visited, stack);
            r.Done? ==> Settled(g, r.visited - Members(stack)) && Members(ds) <= r.visited - Members(stack)
    decreases ord.Keys - visited, |ds| + 1
  {
    if ds == [] {
    } else {
      assert Members(ds) == {ds[0]} + Members(ds[1..]);
      if ds[0] in visited {
        DepsSettle(g, ord, ds[1..], visited, stack);
      } else {
        WalkSettles(g, ord, ds[0], visited, stack);
        var r := Walk(ord, false, ds[0], visited, stack);
        if r.Done? {
          DepsSettle(g, ord, ds[1..], r.visited, stack);
        }
      }
    }
  }

  lemma {:induction false} AllSettle(g: Graph, ord: Order, ns: seq<Path>, visited: set<Path>)
    requires Covers(g, ord) && Settled(g, visited)
    ensures var r := WalkAll(ord, false, ns, visited);
            r.Done? ==> Settled(g, r.visited) && visited + Members(ns) <= r.visited
    decreases |ns|
  {
    assert visited - Members([]) == visited;
    if ns == [] {
    } else {
      assert Members(ns) == {ns[0]} + Members(ns[1..]);
      WalkSettles(g, ord, ns[0], visited, []);
      var r := Walk(ord, false, ns[0], visited, []);
      if r.Done? {
        assert r.visited - Members([]) == r.visited;
        AllSettle(g, ord, ns[1..], r.visited);
      }
    }
  }

  /** Going on with the next dependency, the check raises exactly when the graph is cyclic. */
  lemma GoingOnIsExact(g: Graph, ns: seq<Path>, ord: Order)
    requires Enumerates(g, ns, ord)
    ensures Check(ord, false, ns).Raised? <==> Cyclic(g)
  {
    RaiseIsSound(g, ns, ord, false);
    AllSettle(g, ord, ns, {});
    var r := Check(ord, false, ns);
    if r.Done? {
      forall n ensures !OnCycle(g, n) {
        assert n in g ==> n in Members(ns);
      }
    }
  }

  // ------------------------------------------------------- exactly what the written form misses

  ghost predicate IsLeaf(g: Graph, n: Path) {
    Succ(g, n) == {}
  }

  /** The node leads to one without dependencies. */
  ghost predicate Ends(g: Graph, n: Path) {
    exists leaf :: IsLeaf(g, leaf) && Reaches(g, n, leaf)
  }

  ghost predicate AllEnd(g: Graph) {
    forall n | n in g :: Ends(g, n)
  }

  lemma EndsBefore(g: Graph, n: Path, d: Path)
    requires d in Succ(g, n) && Ends(g, d)
    ensures Ends(g, n)
  {
    var leaf :| IsLeaf(g, leaf) && Reaches(g, d, leaf);
    ReachesVia(g, n, d, leaf);
  }

  /** No node that never ends has been left behind: those visited are all on the stack. */
  ghost predicate NoneLeft(g: Graph, visited: set<Path>, stack: seq<Path>) {
    forall x | x in visited && x !in stack :: Ends(g, x)
  }

  /** The walk of a node that never ends raises. */
  lemma {:induction false} EndlessRaises(g: Graph, ord: Order, n: Path, visited: set<Path>, stack: seq<Path>)
    requires Covers(g, ord) && NoneLeft(g, visited, stack) && n !in visited && !Ends(g, n)
    ensures Walk(ord, true, n, visited, stack).Raised?
    decreases ord.Keys - visited
  {
    if IsLeaf(g, n) {
      ReachesItself(g, n);
    } else {
      var d := ord[n][0];
      assert d in Members(ord[n]);
      if Ends(g, d) {
        EndsBefore(g, n, d);
      } else if d !in visited + {n} {
        EndlessRaises(g, ord, d, visited + {n}, stack + [n]);
      }
    }
  }

  /** A walk that does not raise leaves no such node behind. */
  lemma {:induction false} WalkLeavesNone(g: Graph, ord: Order, n: Path, visited: set<Path>, stack: seq<Path>)
    requires Covers(g, ord) && NoneLeft(g, visited, stack)
    ensures var r := Walk(ord, true, n, visited, stack);
            r.Done? ==> NoneLeft(g, r.visited, stack) && (n in visited || Ends(g, n))
    decreases ord.Keys - visited, 0
  {
    if n !in visited {
      if !Ends(g, n) {
        EndlessRaises(g, ord, n, visited, stack);
      } else if n in ord {
        DepsLeaveNone(g, ord, ord[n], visited + {n}, stack + [n]);
      }
    }
  }

  lemma {:induction false} DepsLeaveNone(g: Graph, ord: Order, ds: seq<Path>, visited: set<Path>, stack: seq<Path>)
    requires Covers(g, ord) && NoneLeft(g, visited, stack)
    ensures var r := WalkDeps(ord, true, ds, visited, stack);
            r.Done? ==> NoneLeft(g, r.visited, stack)
    decreases ord.Keys - visited, |ds| + 1
  {
    if ds == [] || ds[0] in visited {
    } else {
      WalkLeavesNone(g, ord, ds[0], visited, stack);
      var r := Walk(ord, true, ds[0], visited, stack);
      if r.Done? {
        DepsLeaveNone(g, ord, ds[1..], r.visited, stack);
      }
    }
  }

  lemma {:induction false} AllLeaveNone(g: Graph, ord: Order, ns: seq<Path>, visited: set<Path>)
    requires Covers(g, ord) && NoneLeft(g, visited, [])
    ensures WalkAll(ord, true, ns, visited).Done? ==> forall n | n in ns :: Ends(g, n)
    decreases |ns|
  {
    if ns == [] {
    } else {
      WalkLeavesNone(g, ord, ns[0], visited, []);
      var r := Walk(ord, true, ns[0], visited, []);
      if r.Done? {
        AllLeaveNone(g, ord, ns[1..], r.visited);
      }
    }
  }

  lemma DoneMeansAllEnd(g: Graph, ns: seq<Path>, ord: Order)
    requires Enumerates(g, ns, ord) && Check(ord, true, ns).Done?
    ensures AllEnd(g)
  {
    AllLeaveNone(g, ord, ns, {});
    assert forall n | n in g :: n in Members(ns);
  }

  /** Each node is a leaf or lists first a dependency that comes before it. */
  ghost predicate Arranged(g: Graph, ns: seq<Path>, ord: Order) {
    && Lists(ns, ord.Keys) && ord.Keys <= g.Keys
    && (forall n | n in ord :: Lists(ord[n], g[n]))
    && (forall i | 0 <= i < |ns| :: LooksBack(ns, ord, i))
  }

  ghost predicate LooksBack(ns: seq<Path>, ord: Order, i: nat) {
    i < |ns| && ns[i] in ord && (ord[ns[i]] == [] || ord[ns[i]][0] in ns[..i])
  }

  lemma SetAsList(s: set<Path>) returns (r: seq<Path>)
    ensures Lists(r, s)
    decreases |s|
  {
    if s == {} {
      r := [];
    } else {
      var x :| x in s;
      var r' := SetAsList(s - {x});
      assert forall y | y in r' :: y in Members(r');
      r := [x] + r';
      assert Members(r) == {x} + Members(r');
    }
  }

  /** On the way to a leaf: a leaf, or the last node before those that are done. */
  lemma {:induction false} NextOnWalk(g: Graph, done: set<Path>, p: seq<Path>) returns (n: Path)
    requires IsGraph(g) && IsWalk(g, p) && p[0] in g && p[0] !in done && IsLeaf(g, p[|p|-1])
    ensures n in g && n !in done && (g[n] == {} || exists d :: d in g[n] && d in done)
    decreases |p|
  {
    n := p[0];
    if |p| == 1 {
    } else {
      assert p[1] in Succ(g, p[0]);
      if p[1] !in done {
        n := NextOnWalk(g, done, p[1..]);
      }
    }
  }

  lemma ArrangeOneMore(g: Graph, ns: seq<Path>, ord: Order, n: Path, ds: seq<Path>)
    requires Arranged(g, ns, ord) && n in g && n !in ord && Lists(ds, g[n]) && (ds == [] || ds[0] in ord)
    ensures Arranged(g, ns + [n], ord[n := ds])
  {
    var ns', ord' := ns + [n], ord[n := ds];
    MembersSnoc(ns, n);
    assert forall x | x in ns :: x in Members(ns);
    forall i | 0 <= i < |ns'| ensures LooksBack(ns', ord', i) {
      if i < |ns| {
        assert LooksBack(ns, ord, i) && ns'[..i] == ns[..i];
      } else {
        assert ns'[..i] == ns;
        assert ds != [] ==> ds[0] in Members(ns);
      }
    }
  }

  lemma Arrange(g: Graph, ns: seq<Path>, ord: Order) returns (ns': seq<Path>, ord': Order)
    requires IsGraph(g) && AllEnd(g) && Arranged(g, ns, ord)
    ensures Arranged(g, ns', ord') && ord'.Keys == g.Keys
    decreases g.Keys - ord.Keys
  {
    var left := g.Keys - ord.Keys;
    if left == {} {
      forall k | k in g.Keys ensures k in ord.Keys {
        assert k !in left;
      }
      ns', ord' := ns, ord;
    } else {
      var m :| m in left;
      var leaf :| IsLeaf(g, leaf) && Reaches(g, m, leaf);
      var p :| Joins(g, p, m, leaf);
      var n := NextOnWalk(g, ord.Keys, p);
      var ds := [];
      if g[n] != {} {
        var d :| d in g[n] && d in ord.Keys;
        var rest := SetAsList(g[n] - {d});
        assert forall x | x in rest :: x in Members(rest);
        ds := [d] + rest;
        assert Members(ds) == {d} + Members(rest);
      }
      ArrangeOneMore(g, ns, ord, n, ds);
      ns', ord' := Arrange(g, ns + [n], ord[n := ds]);
    }
  }

  /** In such an order every walk ends at once. */
  lemma {:induction false} ArrangedIsQuiet(g: Graph, ns: seq<Path>, ord: Order, k: nat)
    requires Arranged(g, ns, ord) && k <= |ns|
    ensures WalkAll(ord, true, ns[k..], Members(ns[..k])).Done?
    decreases |ns| - k
  {
    if k == |ns| {
    } else {
      var n, before := ns[k], Members(ns[..k]);
      assert LooksBack(ns, ord, k);
      assert n !in before && ns[k..][1..] == ns[k+1..];
      assert ns[..k+1] == ns[..k] + [n];
      MembersSnoc(ns[..k], n);
      assert Walk(ord, true, n, before, []) == Done(before + {n});
      ArrangedIsQuiet(g, ns, ord, k + 1);
    }
  }

  ghost predicate PassesIn(g: Graph, ns: seq<Path>, ord: Order) {
    Enumerates(g, ns, ord) && Check(ord, true, ns).Done?
  }

  /** As written, some order lets a graph pass exactly when every node leads to one without dependencies. */
  lemma PassesInSomeOrder(g: Graph)
    requires IsGraph(g)
    ensures (exists ns, ord :: PassesIn(g, ns, ord)) <==> AllEnd(g)
  {
    if ns, ord :| PassesIn(g, ns, ord) {
      DoneMeansAllEnd(g, ns, ord);
    }
    if AllEnd(g) {
      var ns, ord := Arrange(g, [], map[]);
      ArrangedIsQuiet(g, ns, ord, 0);
      assert ns[0..] == ns && Members(ns[..0]) == {};
      assert PassesIn(g, ns, ord);
    }
  }

  /**
   As written, the check raises exactly for the cyclic graphs, whatever the order, for these graphs only:
   those without a cycle, and those with a node that leads to no node without dependencies.
   */
  lemma WrittenFormIsRight(g: Graph)
    requires IsGraph(g)
    ensures (forall ns, ord | Enumerates(g, ns, ord) :: Check(ord, true, ns).Raised? <==> Cyclic(g))
            <==> !Cyclic(g) || !AllEnd(g)
  {
    PassesInSomeOrder(g);
    forall ns, ord | Enumerates(g, ns, ord)
      ensures Check(ord, true, ns).Raised? ==> Cyclic(g)
      ensures Check(ord, true, ns).Raised? || PassesIn(g, ns, ord)
    {
      RaiseIsSound(g, ns, ord, true);
    }
  }

  /** A cycle that is missed: `b` depends on `a` and `c`, and `c` comes first, so that `a` is not looked at. */
  lemma MissedCycle(a: Path, b: Path, c: Path)
    requires a != b && b != c && c != a
    ensures var g: Graph := map[a := {b}, b := {a, c}, c := {}];
            var ord: Order := map[a := [b], b := [c, a], c := []];
            IsGraph(g) && Cyclic(g) && Enumerates(g, [c, a, b], ord) && Check(ord, true, [c, a, b]).Done?
  {
    var g: Graph := map[a := {b}, b := {a, c}, c := {}];
    ReachesItself(g, a);
    ReachesVia(g, b, a, a);
    ReachesVia(g, a, b, a);
    assert OnCycle(g, a);
    MissedOrder(a, b, c);
    MissedWalk(map[a := [b], b := [c, a], c := []], a, b, c);
  }

  lemma MissedOrder(a: Path, b: Path, c: Path)
    requires a != b && b != c && c != a
    ensures Enumerates(map[a := {b}, b := {a, c}, c := {}], [c, a, b], map[a := [b], b := [c, a], c := []])
  {
    assert Members([c, a, b]) == {a, b, c} && Members([c, a]) == {a, c} && Members([b]) == {b};
  }

  lemma MissedWalk(ord: Order, a: Path, b: Path, c: Path)
    requires a != b && b != c && c != a
    requires ord == map[a := [b], b := [c, a], c := []]
    ensures Check(ord, true, [c, a, b]).Done?
  {
    var ca, all := {c} + {a}, {c} + {a} + {b};
    assert Walk(ord, true, c, {}, []) == Done({} + {c});
    assert {} + {c} == {c};
    assert Walk(ord, true, b, ca, [a]) == Done(all);
    assert WalkDeps(ord, true, [b], ca, [a]) == Done(all) by {
      assert [b][1..] == [];
    }
    assert Walk(ord, true, a, {c}, []) == Done(all) by {
      assert [] + [a] == [a];
    }
    assert [c, a, b][1..] == [a, b] && [a, b][1..] == [b] && [b][1..] == [];
    assert WalkAll(ord, true, [b], all) == Done(all);
    assert WalkAll(ord, true, [a, b], {c}) == Done(all);
  }

  // ------------------------------------------------------ the written form, dependency by dependency

  function DepsOf(ord: Order, n: Path): seq<Path> {
    if n in ord then ord[n] else []
  }

  /** Dependency `j` is looked at with the visited nodes `vs[j]`: it is new, and its walk leads to `vs[j+1]`. */
  ghost predicate Descends(ord: Order, n: Path, stack: seq<Path>, vs: seq<set<Path>>, j: nat) {
    && j + 1 < |vs| && j < |DepsOf(ord, n)|
    && DepsOf(ord, n)[j] !in vs[j]
    && Walk(ord, true, DepsOf(ord, n)[j], vs[j], stack + [n]) == Done(vs[j+1])
  }

  /** The walk of a new node has looked at its first dependencies in turn, and went into each. */
  ghost predicate Scans(ord: Order, n: Path, visited: set<Path>, stack: seq<Path>, vs: seq<set<Path>>) {
    && vs != [] && vs[0] == visited + {n}
    && forall j: nat | j + 1 < |vs| :: Descends(ord, n, stack, vs, j)
  }

  /** It ends there: no dependency is left, or the next one was visited before and is not on the stack. */
  ghost predicate EndsScan(ord: Order, n: Path, stack: seq<Path>, vs: seq<set<Path>>)
    requires vs != []
  {
    var m, ds := |vs| - 1, DepsOf(ord, n);
    m == |ds| || (m < |ds| && ds[m] in vs[m] && ds[m] !in stack + [n])
  }

  /** Or it raises there: the next one is on the stack, or its own walk raises. */
  ghost predicate RaisesScan(ord: Order, n: Path, stack: seq<Path>, vs: seq<set<Path>>)
    requires vs != []
  {
    var m, ds := |vs| - 1, DepsOf(ord, n);
    && m < |ds|
    && if ds[m] in vs[m] then ds[m] in stack + [n] else Walk(ord, true, ds[m], vs[m], stack + [n]).Raised?
  }

  lemma {:induction false} DepsScan(ord: Order, n: Path, visited: set<Path>, stack: seq<Path>, vs: seq<set<Path>>)
    returns (vs': seq<set<Path>>)
    requires Scans(ord, n, visited, stack, vs) && |vs| - 1 <= |DepsOf(ord, n)|
    ensures Scans(ord, n, visited, stack, vs') && |vs'| - 1 <= |DepsOf(ord, n)|
    ensures var r := WalkDeps(ord, true, DepsOf(ord, n)[|vs|-1..], vs[|vs|-1], stack + [n]);
            if r.Done? then EndsScan(ord, n, stack, vs') && r.visited == vs'[|vs'|-1]
            else RaisesScan(ord, n, stack, vs')
    decreases |DepsOf(ord, n)| - |vs|
  {
    var m, ds := |vs| - 1, DepsOf(ord, n);
    vs' := vs;
    if m == |ds| || ds[m] in vs[m] {
    } else {
      var r := Walk(ord, true, ds[m], vs[m], stack + [n]);
      if r.Done? {
        var next := vs + [r.visited];
        assert ds[m..][1..] == ds[m+1..];
        forall j: nat | j + 1 < |next| ensures Descends(ord, n, stack, next, j) {
          assert j < m ==> Descends(ord, n, stack, vs, j);
        }
        vs' := DepsScan(ord, n, visited, stack, next);
      }
    }
  }

  /** In any one order: the walk of a new node goes through its dependencies just as far as this. */
  lemma WalkScans(ord: Order, n: Path, visited: set<Path>, stack: seq<Path>) returns (vs: seq<set<Path>>)
    requires n !in visited
    ensures Scans(ord, n, visited, stack, vs)
    ensures var r := Walk(ord, true, n, visited, stack);
            if r.Done? then EndsScan(ord, n, stack, vs) && r.visited == vs[|vs|-1] else RaisesScan(ord, n, stack, vs)
  {
    vs := DepsScan(ord, n, visited, stack, [visited + {n}]);
    assert DepsOf(ord, n)[0..] == DepsOf(ord, n);
  }

  // ---------------------------------------------------------------- the written form, step by step

  /** A walk that is under way: its node, and the dependency to look at next. */
  datatype Frame = Frame(node: Path, next: nat)

  /** The nodes still to be walked from, the walks under way, and the visited nodes. */
  datatype Machine = Machine(todo: seq<Path>, frames: seq<Frame>, visited: set<Path>)

  function Stack(frames: seq<Frame>): seq<Path> {
    seq(|frames|, i requires 0 <= i < |frames| => frames[i].node)
  }

  function Popped(c: Machine): Machine
    requires c.frames != []
  {
    c.(frames := c.frames[..|c.frames|-1])
  }

  function Pushed(c: Machine, n: Path): Machine {
    c.(frames := c.frames + [Frame(n, 0)], visited := c.visited + {n})
  }

  /** The dependency that the innermost walk looks at, if it has one left. */
  function LooksAt(ord: Order, c: Machine): Option<Path> {
    if c.frames == [] then None
    else
      var top := c.frames[|c.frames|-1];
      if top.next < |DepsOf(ord, top.node)| then Some(DepsOf(ord, top.node)[top.next]) else None
  }

  /** The look that raises: a dependency that is on the stack. */
  predicate FindsLoop(ord: Order, c: Machine) {
    var d := LooksAt(ord, c);
    d.Some? && d.value in c.visited && d.value in Stack(c.frames)
  }

  /** The innermost walk goes on to its next dependency. */
  function Advanced(c: Machine): Machine
    requires c.frames != []
  {
    var top := c.frames[|c.frames|-1];
    c.(frames := c.frames[..|c.frames|-1] + [top.(next := top.next + 1)])
  }

  /** One look, or one start or end of a walk; nothing after a raise or at the end. */
  function Next(ord: Order, c: Machine): Option<Machine> {
    if c.frames == [] then
      if c.todo == [] then None
      else
        var n, c' := c.todo[0], c.(todo := c.todo[1..]);
        Some(if n in c.visited then c' else Pushed(c', n))
    else
      var d := LooksAt(ord, c);
      if d.None? then Some(Popped(c))
      else if d.value !in c.visited then Some(Pushed(Advanced(c), d.value))
      else if d.value in Stack(c.frames) then None
      else Some(Popped(c))
  }

  ghost predicate Leads(ord: Order, c: Machine, c': Machine, k: nat)
    decreases k
  {
    if k == 0 then c == c' else Next(ord, c).Some? && Leads(ord, Next(ord, c).value, c', k - 1)
  }

  lemma {:induction false} LeadsOn(ord: Order, a: Machine, b: Machine, c: Machine, k: nat, l: nat)
    requires Leads(ord, a, b, k) && Leads(ord, b, c, l)
    ensures Leads(ord, a, c, k + l)
    decreases k
  {
    if k == 0 {
    } else {
      LeadsOn(ord, Next(ord, a).value, b, c, k - 1, l);
    }
  }

  /** The machine stops in one place only. */
  lemma {:induction false} StopsOnce(ord: Order, c: Machine, a: Machine, b: Machine, k: nat, l: nat)
    requires Leads(ord, c, a, k) && Leads(ord, c, b, l) && Next(ord, a).None? && Next(ord, b).None?
    ensures a == b
    decreases k
  {
    if k == 0 || l == 0 {
    } else {
      StopsOnce(ord, Next(ord, c).value, a, b, k - 1, l - 1);
    }
  }

  /** Where a walk takes the machine: out of it, or to the look that raises. */
  ghost predicate TakesTo(ord: Order, c: Machine, r: Outcome, todo: seq<Path>, frames: seq<Frame>, c': Machine, k: nat)
  {
    && Leads(ord, c, c', k)
    && if r.Done? then c' == Machine(todo, frames, r.visited) else FindsLoop(ord, c') && Stack(c'.frames) == r.stack
  }

  lemma StackSnoc(frames: seq<Frame>, f: Frame)
    ensures Stack(frames + [f]) == Stack(frames) + [f.node]
  {
  }

  lemma {:induction false} WalkRuns(ord: Order, n: Path, todo: seq<Path>, frames: seq<Frame>, visited: set<Path>)
    returns (c': Machine, k: nat)
    requires n !in visited
    ensures TakesTo(ord, Machine(todo, frames + [Frame(n, 0)], visited + {n}),
                    Walk(ord, true, n, visited, Stack(frames)), todo, frames, c', k)
    decreases ord.Keys - visited, 0
  {
    var c := Machine(todo, frames + [Frame(n, 0)], visited + {n});
    if n !in ord {
      c', k := Popped(c), 1;
      assert c' == Machine(todo, frames, visited + {n}) && Leads(ord, c', c', 0);
    } else {
      assert ord[n][0..] == ord[n];
      c', k := DepsRun(ord, n, 0, todo, frames, visited + {n});
    }
  }

  lemma {:induction false} DepsRun(ord: Order, n: Path, j: nat, todo: seq<Path>, frames: seq<Frame>, visited: set<Path>)
    returns (c': Machine, k: nat)
    requires n in ord && j <= |ord[n]|
    ensures TakesTo(ord, Machine(todo, frames + [Frame(n, j)], visited),
                    WalkDeps(ord, true, ord[n][j..], visited, Stack(frames) + [n]), todo, frames, c', k)
    decreases ord.Keys - visited, 2 * (|ord[n]| - j) + 1
  {
    var c := Machine(todo, frames + [Frame(n, j)], visited);
    StackSnoc(frames, Frame(n, j));
    if j == |ord[n]| {
      c', k := Popped(c), 1;
      assert c' == Machine(todo, frames, visited) && Leads(ord, c', c', 0);
    } else {
      var d := ord[n][j];
      if d in visited {
        if d in Stack(frames) + [n] {
          c', k := c, 0;
        } else {
          c', k := Popped(c), 1;
          assert c' == Machine(todo, frames, visited) && Leads(ord, c', c', 0);
        }
      } else {
        c', k := NewDepRuns(ord, n, j, todo, frames, visited);
      }
    }
  }

  lemma {:induction false} NewDepRuns(ord: Order, n: Path, j: nat, todo: seq<Path>, frames: seq<Frame>,
                                      visited: set<Path>)
    returns (c': Machine, k: nat)
    requires n in ord && j < |ord[n]| && ord[n][j] !in visited
    ensures TakesTo(ord, Machine(todo, frames + [Frame(n, j)], visited),
                    WalkDeps(ord, true, ord[n][j..], visited, Stack(frames) + [n]), todo, frames, c', k)
    decreases ord.Keys - visited, 2 * (|ord[n]| - j)
  {
    var c, d := Machine(todo, frames + [Frame(n, j)], visited), ord[n][j];
    var outer := frames + [Frame(n, j + 1)];
    StackSnoc(frames, Frame(n, j + 1));
    var pushed := Machine(todo, outer + [Frame(d, 0)], visited + {d});
    assert Next(ord, c) == Some(pushed);
    c', k := WalkRuns(ord, d, todo, outer, visited);
    assert Leads(ord, c, c', k + 1);
    k := k + 1;
    var r := Walk(ord, true, d, visited, Stack(frames) + [n]);
    assert ord[n][j..][1..] == ord[n][j+1..];
    if r.Done? {
      var c'', l := DepsRun(ord, n, j + 1, todo, frames, r.visited);
      LeadsOn(ord, c, c', c'', k, l);
      c', k := c'', k + l;
    }
  }

  lemma {:induction false} AllRun(ord: Order, ns: seq<Path>, visited: set<Path>) returns (c': Machine, k: nat)
    ensures TakesTo(ord, Machine(ns, [], visited), WalkAll(ord, true, ns, visited), [], [], c', k)
    decreases |ns|
  {
    var c := Machine(ns, [], visited);
    if ns == [] {
      c', k := c, 0;
    } else {
      var n, more := ns[0], ns[1..];
      assert Stack([]) == [] && [] + [Frame(n, 0)] == [Frame(n, 0)];
      if n in visited {
        c', k := Machine(more, [], visited), 1;
        assert Leads(ord, c', c', 0);
      } else {
        c', k := WalkRuns(ord, n, more, [], visited);
        k := k + 1;
      }
      var r := Walk(ord, true, n, visited, []);
      if r.Done? {
        var c'', l := AllRun(ord, more, r.visited);
        LeadsOn(ord, c, c', c'', k, l);
        c', k := c'', k + l;
      }
    }
  }

  ghost predicate GetsTo(ord: Order, ns: seq<Path>, c: Machine) {
    exists k: nat :: Leads(ord, Machine(ns, [], {}), c, k)
  }

  lemma StopsIn(ord: Order, ns: seq<Path>, c: Machine, c': Machine)
    requires GetsTo(ord, ns, c) && GetsTo(ord, ns, c') && Next(ord, c).None? && Next(ord, c').None?
    ensures c == c'
  {
    var start := Machine(ns, [], {});
    var k: nat :| Leads(ord, start, c, k);
    var l: nat :| Leads(ord, start, c', l);
    StopsOnce(ord, start, c, c', k, l);
  }

  /** In any one order, the check as written raises exactly if a dependency is on the stack when it is looked at. */
  lemma RaisesWhenLooking(ord: Order, ns: seq<Path>)
    ensures Check(ord, true, ns).Raised? <==> exists c :: GetsTo(ord, ns, c) && FindsLoop(ord, c)
    ensures Check(ord, true, ns).Done? <==> exists c :: GetsTo(ord, ns, c) && c.todo == [] && c.frames == []
  {
    var c', k' := AllRun(ord, ns, {});
    assert GetsTo(ord, ns, c') && Next(ord, c').None?;
    if c :| GetsTo(ord, ns, c) && FindsLoop(ord, c) {
      StopsIn(ord, ns, c, c');
    }
    if c :| GetsTo(ord, ns, c) && c.todo == [] && c.frames == [] {
      StopsIn(ord, ns, c, c');
    }
  }

  // --------------------------------------------------------------- the check as a program

  class Checker {
    const deps: Order
    var visited: set<Path>
    var stack: seq<Path>

    constructor (deps: Order)
      ensures this.deps == deps && visited == {} && stack == []
    {
      this.deps, visited, stack := deps, {}, [];
    }

    /** The stack is put back also when the walk raises. */
    method Visit(node: Path) returns (raised: bool)
      modifies this
      ensures var r := Walk(deps, true, node, old(visited), old(stack));
              raised == r.Raised? && (r.Done? ==> visited == r.visited)
      ensures stack == old(stack)
      decreases deps.Keys - visited
    {
      raised := false;
      if node in visited {
        return;
      }
      stack := stack + [node];
      visited := visited + {node};
      if node in deps {
        var i := 0;
        ghost var whole := WalkDeps(deps, true, deps[node], visited, stack);
        while i < |deps[node]|
          invariant 0 <= i <= |deps[node]|
          invariant stack == old(stack) + [node] && old(visited) + {node} <= visited
          invariant WalkDeps(deps, true, deps[node][i..], visited, stack) == whole
        {
          var dep := deps[node][i];
          assert deps[node][i..][1..] == deps[node][i+1..];
          if dep in visited {
            raised := dep in stack;
            break;
          }
          raised := Visit(dep);
          if raised {
            break;
          }
          i := i + 1;
        }
      }
      stack := stack[..|stack|-1];
    }

    method Run(nodes: seq<Path>) returns (raised: bool)
      requires visited == {} && stack == []
      modifies this
      ensures raised == Check(deps, true, nodes).Raised?
      ensures stack == []
    {
      raised := false;
      var i := 0;
      while i < |nodes|
        invariant 0 <= i <= |nodes| && stack == []
        invariant WalkAll(deps, true, nodes[i..], visited) == Check(deps, true, nodes)
      {
        assert nodes[i..][1..] == nodes[i+1..];
        raised := Visit(nodes[i]);
        if raised {
          return;
        }
        i := i + 1;
      }
    }
  }
}
