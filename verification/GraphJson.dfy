/**
 Saving the dependency graph as a list of records with numbers for the nodes, and reading it back
 (python/yb/dependency_graph.py). The list stands for the JSON text.
 */
module GraphJson {
  import opened Reachability
  import opened SeqMultisets
  import opened DependencyGraph

  datatype Record = Record(id: nat, path: Path, deps: seq<nat>)

  // ---------------------------------------------------------------------- saving

  type Ids = map<Path, nat>

  /** Numbers from 1 on, each given once and none left out. */
  ghost predicate Numbering(ids: Ids, next: nat) {
    && next == |ids| + 1 && (forall p | p in ids :: 1 <= ids[p] < next)
    && (forall p, q | p in ids && q in ids && ids[p] == ids[q] :: p == q)
  }

  /** The later numbering gives every node the number it had. */
  ghost predicate Extends(ids: Ids, ids': Ids) {
    forall p | p in ids :: p in ids' && ids'[p] == ids[p]
  }

  ghost predicate Numbers(ids: Ids, ds: seq<Path>, ns: seq<nat>) {
    |ns| == |ds| && forall j | 0 <= j < |ds| :: ds[j] in ids && ids[ds[j]] == ns[j]
  }

  ghost predicate Writes(ids: Ids, ord: Order, n: Path, r: Record) {
    n in ids && n in ord && r.id == ids[n] && r.path == n && Numbers(ids, ord[n], r.deps)
  }

  ghost predicate Written(ids: Ids, ord: Order, ns: seq<Path>, recs: seq<Record>) {
    |recs| == |ns| && forall i | 0 <= i < |ns| :: Writes(ids, ord, ns[i], recs[i])
  }

  /** A list of records that saving the graph may give: the nodes and the dependencies come in any order. */
  ghost predicate Saved(g: Graph, recs: seq<Record>) {
    exists ids, next, ns, ord :: SavedBy(g, ids, next, ns, ord, recs)
  }

  ghost predicate SavedBy(g: Graph, ids: Ids, next: nat, ns: seq<Path>, ord: Order, recs: seq<Record>) {
    Enumerates(g, ns, ord) && Numbering(ids, next) && Written(ids, ord, ns, recs)
  }

  lemma NumberOneMore(ids: Ids, next: nat, p: Path)
    requires Numbering(ids, next) && p !in ids
    ensures Numbering(ids[p := next], next + 1) && Extends(ids, ids[p := next])
    ensures ids[p := next].Keys == ids.Keys + {p}
  {
  }

  lemma NumbersSnoc(ids: Ids, ids': Ids, ds: seq<Path>, ns: seq<nat>, d: Path)
    requires Numbers(ids, ds, ns) && Extends(ids, ids') && d in ids'
    ensures Numbers(ids', ds + [d], ns + [ids'[d]])
  {
  }

  lemma ExtendsTrans(a: Ids, b: Ids, c: Ids)
    requires Extends(a, b) && Extends(b, c)
    ensures Extends(a, c)
  {
  }

  class Saver {
    var nextId: nat
    var pathToId: Ids

    ghost predicate Valid()
      reads this
    {
      Numbering(pathToId, nextId)
    }

    constructor ()
      ensures Valid() && pathToId == map[]
    {
      nextId, pathToId := 1, map[];
    }

    /** The number of a node, given on first mention; no number is 0, which would read as missing. */
    method NodeId(path: Path) returns (id: nat)
      requires Valid()
      modifies this
      ensures Valid() && Extends(old(pathToId), pathToId)
      ensures pathToId.Keys == old(pathToId.Keys) + {path} && id == pathToId[path]
    {
      id := if path in pathToId then pathToId[path] else 0;
      if id == 0 {
        NumberOneMore(pathToId, nextId, path);
        id := nextId;
        pathToId := pathToId[path := id];
        nextId := id + 1;
      }
    }

    method DepIds(ds: seq<Path>) returns (ns: seq<nat>)
      requires Valid()
      modifies this
      ensures Valid() && Extends(old(pathToId), pathToId)
      ensures pathToId.Keys == old(pathToId.Keys) + Members(ds) && Numbers(pathToId, ds, ns)
    {
      ns := [];
      var i := 0;
      while i < |ds|
        invariant 0 <= i <= |ds| && Valid() && Extends(old(pathToId), pathToId)
        invariant pathToId.Keys == old(pathToId.Keys) + Members(ds[..i]) && Numbers(pathToId, ds[..i], ns)
      {
        assert ds[..i+1] == ds[..i] + [ds[i]];
        MembersSnoc(ds[..i], ds[i]);
        ghost var ids := pathToId;
        var id := NodeId(ds[i]);
        ExtendsTrans(old(pathToId), ids, pathToId);
        NumbersSnoc(ids, pathToId, ds[..i], ns, ds[i]);
        ns := ns + [id];
        i := i + 1;
      }
      assert ds[..|ds|] == ds;
    }

    method Save(ns: seq<Path>, ord: Order) returns (recs: seq<Record>)
      requires Valid() && pathToId == map[] && forall n | n in ns :: n in ord
      modifies this
      ensures Valid() && Written(pathToId, ord, ns, recs)
    {
      recs := [];
      var i := 0;
      while i < |ns|
        invariant 0 <= i <= |ns| && Valid() && Written(pathToId, ord, ns[..i], recs)
      {
        assert ns[..i+1] == ns[..i] + [ns[i]];
        ghost var ids := pathToId;
        var id := NodeId(ns[i]);
        var deps := DepIds(ord[ns[i]]);
        WrittenExtends(ids, pathToId, ord, ns[..i], recs);
        recs := recs + [Record(id, ns[i], deps)];
        i := i + 1;
      }
      assert ns[..|ns|] == ns;
    }
  }

  lemma WrittenExtends(ids: Ids, ids': Ids, ord: Order, ns: seq<Path>, recs: seq<Record>)
    requires Written(ids, ord, ns, recs) && Extends(ids, ids')
    ensures Written(ids', ord, ns, recs)
  {
    forall i | 0 <= i < |ns| ensures Writes(ids', ord, ns[i], recs[i]) {
      assert Writes(ids, ord, ns[i], recs[i]);
    }
  }

  // --------------------------------------------------------------------- reading back

  /** The record that a number stands for: the last one with it. */
  function ById(recs: seq<Record>): map<nat, Record> {
    if recs == [] then map[]
    else var k := |recs| - 1; ById(recs[..k])[recs[k].id := recs[k]]
  }

  /** A record with a number, and none behind it with the same. */
  ghost predicate LastWith(recs: seq<Record>, id: nat, r: Record) {
    exists i :: 0 <= i < |recs| && recs[i] == r && r.id == id && forall j | i < j < |recs| :: recs[j].id != id
  }

  lemma {:induction false} ByIdIsLast(recs: seq<Record>, id: nat)
    ensures id in ById(recs) <==> exists r :: r in recs && r.id == id
    ensures id in ById(recs) ==> LastWith(recs, id, ById(recs)[id])
  {
    if recs == [] {
    } else {
      var k := |recs| - 1;
      ByIdIsLast(recs[..k], id);
      assert recs == recs[..k] + [recs[k]];
    }
  }

  function Nodes(canonical: Path -> Path, recs: seq<Record>): set<Path> {
    set r | r in recs :: canonical(r.path)
  }

  /** A dependency that the records state between two nodes. */
  ghost predicate States(canonical: Path -> Path, m: map<nat, Record>, a: Path, b: Path) {
    exists id: nat, dep: nat :: StatedBy(canonical, m, a, b, id, dep)
  }

  ghost predicate StatedBy(canonical: Path -> Path, m: map<nat, Record>, a: Path, b: Path, id: nat, dep: nat) {
    id in m && dep in m && dep in m[id].deps && canonical(m[id].path) == a && canonical(m[dep].path) == b
  }

  /** A number without a record, or a dependency of a node on itself. */
  ghost predicate Bad(canonical: Path -> Path, m: map<nat, Record>, id: nat, dep: nat) {
    id in m && dep in m[id].deps && (dep !in m || canonical(m[dep].path) == canonical(m[id].path))
  }

  ghost predicate Loadable(canonical: Path -> Path, recs: seq<Record>) {
    forall id: nat, dep: nat :: !Bad(canonical, ById(recs), id, dep)
  }

  /** The graph that the records state. */
  ghost predicate LoadsTo(canonical: Path -> Path, recs: seq<Record>, g: Graph) {
    && g.Keys == Nodes(canonical, recs)
    && forall a, b :: b in Succ(g, a) <==> States(canonical, ById(recs), a, b)
  }

  /** The two tables of the reader: the node and the dependency numbers of each number. */
  ghost predicate Tables(canonical: Path -> Path, m: map<nat, Record>,
                         idToNode: map<nat, Path>, idToDeps: map<nat, seq<nat>>)
  {
    && idToNode.Keys == m.Keys && idToDeps.Keys == m.Keys
    && forall id | id in m :: idToNode[id] == canonical(m[id].path) && idToDeps[id] == m[id].deps
  }

  lemma NodesSnoc(canonical: Path -> Path, recs: seq<Record>, r: Record)
    ensures Nodes(canonical, recs + [r]) == Nodes(canonical, recs) + {canonical(r.path)}
    ensures ById(recs + [r]) == ById(recs)[r.id := r]
  {
    var recs' := recs + [r];
    assert recs'[..|recs|] == recs;
    assert forall x | x in recs :: x in recs';
    assert recs'[|recs|] == r;
  }

  lemma {:induction false} NodesOfIds(canonical: Path -> Path, recs: seq<Record>)
    ensures forall id | id in ById(recs) :: canonical(ById(recs)[id].path) in Nodes(canonical, recs)
  {
    if recs == [] {
    } else {
      var k := |recs| - 1;
      NodesOfIds(canonical, recs[..k]);
      NodesSnoc(canonical, recs[..k], recs[k]);
      assert recs == recs[..k] + [recs[k]];
    }
  }

  /** The canonical paths of the records stay as they are when made canonical again. */
  ghost predicate Stable(canonical: Path -> Path, recs: seq<Record>) {
    forall i | 0 <= i < |recs| :: canonical(canonical(recs[i].path)) == canonical(recs[i].path)
  }

  /** Nodes without edges for the records so far, and the tables filled. */
  ghost predicate Entered(canonical: Path -> Path, recs: seq<Record>, g: Graph,
                          idToNode: map<nat, Path>, idToDeps: map<nat, seq<nat>>)
  {
    && g.Keys == Nodes(canonical, recs) && (forall n | n in g :: g[n] == {})
    && Tables(canonical, ById(recs), idToNode, idToDeps)
  }

  lemma EnterOneMore(canonical: Path -> Path, recs: seq<Record>, g: Graph,
                     idToNode: map<nat, Path>, idToDeps: map<nat, seq<nat>>, r: Record)
    requires Entered(canonical, recs, g, idToNode, idToDeps)
    ensures Entered(canonical, recs + [r], WithNode(g, canonical(r.path)),
                    idToNode[r.id := canonical(r.path)], idToDeps[r.id := r.deps])
  {
    NodesSnoc(canonical, recs, r);
  }

  /** First pass: every path becomes a node. */
  method ReadNodes(g: BuildGraph, recs: seq<Record>) returns (idToNode: map<nat, Path>, idToDeps: map<nat, seq<nat>>)
    requires g.Valid() && g.deps == map[] && Stable(g.canonical, recs)
    modifies g
    ensures g.Valid() && Entered(g.canonical, recs, g.deps, idToNode, idToDeps)
  {
    idToNode, idToDeps := map[], map[];
    var i := 0;
    while i < |recs|
      invariant 0 <= i <= |recs|
      invariant g.Valid() && Entered(g.canonical, recs[..i], g.deps, idToNode, idToDeps)
    {
      var r := recs[i];
      assert recs[..i+1] == recs[..i] + [r];
      EnterOneMore(g.canonical, recs[..i], g.deps, idToNode, idToDeps, r);
      var node := g.FindOrCreateNode(r.path);
      idToNode, idToDeps := idToNode[r.id := node], idToDeps[r.id := r.deps];
      i := i + 1;
    }
    assert recs[..|recs|] == recs;
  }

  /** The edges of the graph are those that the given pairs of numbers state. */
  ghost predicate Linked(canonical: Path -> Path, m: map<nat, Record>, pairs: set<(nat, nat)>, g: Graph) {
    forall a, b :: b in Succ(g, a) <==>
      exists id: nat, dep: nat :: (id, dep) in pairs && StatedBy(canonical, m, a, b, id, dep)
  }

  lemma LinkOneMore(canonical: Path -> Path, m: map<nat, Record>, pairs: set<(nat, nat)>, g: Graph, id: nat, dep: nat)
    requires Linked(canonical, m, pairs, g) && id in m && dep in m && dep in m[id].deps
    ensures Linked(canonical, m, pairs + {(id, dep)}, WithEdge(g, canonical(m[id].path), canonical(m[dep].path)))
  {
    var n, d := canonical(m[id].path), canonical(m[dep].path);
    var g', pairs' := WithEdge(g, n, d), pairs + {(id, dep)};
    forall a, b ensures b in Succ(g', a) <==> exists i, j :: (i, j) in pairs' && StatedBy(canonical, m, a, b, i, j) {
      if a == n && b == d {
        assert (id, dep) in pairs' && StatedBy(canonical, m, a, b, id, dep);
      } else {
        assert b in Succ(g', a) <==> b in Succ(g, a);
        if b in Succ(g, a) {
          var i, j :| (i, j) in pairs && StatedBy(canonical, m, a, b, i, j);
          assert (i, j) in pairs';
        }
        if i, j :| (i, j) in pairs' && StatedBy(canonical, m, a, b, i, j) {
          assert (i, j) in pairs;
        }
      }
    }
  }

  /** All nodes are there, and the given pairs of numbers are entered and none is bad. */
  ghost predicate Linking(canonical: Path -> Path, m: map<nat, Record>, pairs: set<(nat, nat)>, g: Graph) {
    && Linked(canonical, m, pairs, g)
    && (forall id | id in m :: canonical(m[id].path) in g)
    && (forall id, dep | (id, dep) in pairs :: !Bad(canonical, m, id, dep))
  }

  ghost predicate Has(pairs: set<(nat, nat)>, id: nat, deps: seq<nat>) {
    forall dep | dep in deps :: (id, dep) in pairs
  }

  /** The pairs of every number are in, except those of the numbers still to do. */
  ghost predicate HasAll(m: map<nat, Record>, pairs: set<(nat, nat)>, todo: set<nat>) {
    forall id | id in m :: id in todo || Has(pairs, id, m[id].deps)
  }

  lemma HasOneFewer(m: map<nat, Record>, pairs: set<(nat, nat)>, pairs': set<(nat, nat)>, todo: set<nat>, id: nat)
    requires HasAll(m, pairs, todo) && pairs <= pairs' && id in m && Has(pairs', id, m[id].deps)
    ensures HasAll(m, pairs', todo - {id})
  {
  }

  lemma LinkingOneMore(canonical: Path -> Path, m: map<nat, Record>, pairs: set<(nat, nat)>, g: Graph,
                       id: nat, dep: nat)
    requires Linking(canonical, m, pairs, g) && id in m && dep in m && dep in m[id].deps
    requires canonical(m[id].path) != canonical(m[dep].path)
    ensures Linking(canonical, m, pairs + {(id, dep)}, WithEdge(g, canonical(m[id].path), canonical(m[dep].path)))
  {
    LinkOneMore(canonical, m, pairs, g, id, dep);
  }

  lemma HasOneMore(pairs: set<(nat, nat)>, id: nat, deps: seq<nat>, dep: nat)
    requires Has(pairs, id, deps)
    ensures Has(pairs + {(id, dep)}, id, deps + [dep])
  {
  }

  /** Second pass, one dependency: a missing number and a dependency on itself are errors. */
  method LinkDep(g: BuildGraph, ghost m: map<nat, Record>, idToNode: map<nat, Path>, id: nat, dep: nat,
                 ghost pairs: set<(nat, nat)>)
    returns (ok: bool)
    requires g.Valid() && Linking(g.canonical, m, pairs, g.deps) && id in m && dep in m[id].deps
    requires idToNode.Keys == m.Keys && forall j | j in m :: idToNode[j] == g.canonical(m[j].path)
    modifies g
    ensures g.Valid() && g.deps.Keys == old(g.deps.Keys) && ok == !Bad(g.canonical, m, id, dep)
    ensures ok ==> Linking(g.canonical, m, pairs + {(id, dep)}, g.deps)
  {
    ok := dep in idToNode;
    if ok {
      if !Bad(g.canonical, m, id, dep) {
        LinkingOneMore(g.canonical, m, pairs, g.deps, id, dep);
      }
      ok := g.AddDependency(idToNode[id], idToNode[dep]);
    }
  }

  method LinkNode(g: BuildGraph, ghost m: map<nat, Record>, idToNode: map<nat, Path>, id: nat, deps: seq<nat>,
                  ghost pairs: set<(nat, nat)>)
    returns (ok: bool, ghost pairs': set<(nat, nat)>)
    requires g.Valid() && Linking(g.canonical, m, pairs, g.deps) && id in m && deps == m[id].deps
    requires idToNode.Keys == m.Keys && forall j | j in m :: idToNode[j] == g.canonical(m[j].path)
    modifies g
    ensures g.Valid() && g.deps.Keys == old(g.deps.Keys)
    ensures if ok then Linking(g.canonical, m, pairs', g.deps) && pairs <= pairs' && Has(pairs', id, deps)
            else exists dep :: Bad(g.canonical, m, id, dep)
  {
    pairs' := pairs;
    var i := 0;
    while i < |deps|
      invariant 0 <= i <= |deps| && g.Valid() && g.deps.Keys == old(g.deps.Keys)
      invariant Linking(g.canonical, m, pairs', g.deps) && pairs <= pairs' && Has(pairs', id, deps[..i])
    {
      ok := LinkDep(g, m, idToNode, id, deps[i], pairs');
      if !ok {
        return;
      }
      assert deps[..i+1] == deps[..i] + [deps[i]];
      HasOneMore(pairs', id, deps[..i], deps[i]);
      pairs' := pairs' + {(id, deps[i])};
      i := i + 1;
    }
    assert deps[..|deps|] == deps;
    ok := true;
  }

  /** No pair is bad when those of every number are in and none of them is bad. */
  lemma AllLinked(canonical: Path -> Path, recs: seq<Record>, pairs: set<(nat, nat)>, g: Graph)
    requires Linking(canonical, ById(recs), pairs, g) && g.Keys == Nodes(canonical, recs)
    requires HasAll(ById(recs), pairs, {})
    ensures Loadable(canonical, recs) && LoadsTo(canonical, recs, g)
  {
    var m := ById(recs);
    forall id: nat, dep: nat ensures !Bad(canonical, m, id, dep) {
      if id in m && dep in m[id].deps {
        assert Has(pairs, id, m[id].deps);
      }
    }
    forall a, b ensures b in Succ(g, a) <==> States(canonical, m, a, b) {
      if id: nat, dep: nat :| StatedBy(canonical, m, a, b, id, dep) {
        assert Has(pairs, id, m[id].deps);
        assert (id, dep) in pairs && StatedBy(canonical, m, a, b, id, dep);
      }
    }
  }

  lemma NothingLinked(canonical: Path -> Path, recs: seq<Record>, g: Graph)
    requires g.Keys == Nodes(canonical, recs) && forall n | n in g :: g[n] == {}
    ensures Linking(canonical, ById(recs), {}, g)
  {
    NodesOfIds(canonical, recs);
  }

  /** Second pass: the numbers are taken in any order. */
  method LinkNodes(g: BuildGraph, ghost recs: seq<Record>, idToNode: map<nat, Path>, idToDeps: map<nat, seq<nat>>)
    returns (ok: bool)
    requires g.Valid() && Entered(g.canonical, recs, g.deps, idToNode, idToDeps)
    modifies g
    ensures g.Valid() && ok == Loadable(g.canonical, recs)
    ensures ok ==> LoadsTo(g.canonical, recs, g.deps)
  {
    ghost var m := ById(recs);
    ghost var pairs: set<(nat, nat)> := {};
    NothingLinked(g.canonical, recs, g.deps);
    var todo := idToDeps.Keys;
    while todo != {}
      invariant todo <= m.Keys && g.Valid() && g.deps.Keys == Nodes(g.canonical, recs)
      invariant Linking(g.canonical, m, pairs, g.deps)
      invariant HasAll(m, pairs, todo)
    {
      var id :| id in todo;
      ghost var before := pairs;
      ok, pairs := LinkNode(g, m, idToNode, id, idToDeps[id], pairs);
      if !ok {
        return;
      }
      HasOneFewer(m, before, pairs, todo, id);
      todo := todo - {id};
    }
    ok := true;
    AllLinked(g.canonical, recs, pairs, g.deps);
  }

  /** Reading succeeds for exactly the loadable lists, and gives the graph that the records state. */
  method Load(canonical: Path -> Path, recs: seq<Record>) returns (ok: bool, g: BuildGraph)
    requires Stable(canonical, recs)
    ensures fresh(g) && g.Valid() && g.canonical == canonical
    ensures ok <==> Loadable(canonical, recs)
    ensures ok ==> LoadsTo(canonical, recs, g.deps)
  {
    g := new BuildGraph(canonical);
    var idToNode, idToDeps := ReadNodes(g, recs);
    ok := LinkNodes(g, recs, idToNode, idToDeps);
  }

  // -------------------------------------------------------------------- the round trip

  /** Each number stands for the record of the node that has it. */
  lemma {:induction false} RecordOf(ids: Ids, next: nat, ord: Order, ns: seq<Path>, recs: seq<Record>)
    requires Numbering(ids, next) && Written(ids, ord, ns, recs)
    ensures forall n | n in ns :: ids[n] in ById(recs) && Writes(ids, ord, n, ById(recs)[ids[n]])
    ensures forall id | id in ById(recs) :: exists n :: n in ns && ids[n] == id
    decreases |ns|
  {
    if ns == [] {
    } else {
      var k := |ns| - 1;
      var n, r := ns[k], recs[k];
      assert Writes(ids, ord, n, r);
      RecordOf(ids, next, ord, ns[..k], recs[..k]);
      forall x | x in ns ensures ids[x] in ById(recs) && Writes(ids, ord, x, ById(recs)[ids[x]]) {
        if x != n {
          assert x in ns[..k];
        }
      }
      forall id | id in ById(recs) ensures exists x :: x in ns && ids[x] == id {
        if id != r.id {
          var x :| x in ns[..k] && ids[x] == id;
        } else {
          assert n in ns;
        }
      }
    }
  }

  /** What the records of a saved graph say of one pair of numbers. */
  lemma PairOf(g: Graph, ids: Ids, next: nat, ns: seq<Path>, ord: Order, recs: seq<Record>, a: Path, b: Path)
    requires SavedBy(g, ids, next, ns, ord, recs) && a in g && b in g
    ensures ids[a] in ById(recs) && ById(recs)[ids[a]].path == a
    ensures ids[b] in ById(recs)[ids[a]].deps <==> b in g[a]
  {
    RecordOf(ids, next, ord, ns, recs);
    assert a in Members(ns) && b in Members(ns);
    var r := ById(recs)[ids[a]];
    assert Writes(ids, ord, a, r) && Members(ord[a]) == g[a];
    if b in g[a] {
      assert b in Members(ord[a]);
      var j :| 0 <= j < |ord[a]| && ord[a][j] == b;
      assert r.deps[j] == ids[b];
    }
    if ids[b] in r.deps {
      var j :| 0 <= j < |r.deps| && r.deps[j] == ids[b];
      assert ids[ord[a][j]] == ids[b] && ord[a][j] in Members(ord[a]);
    }
  }

  /** Every number in the records of a saved graph is that of a node. */
  lemma NumberOf(g: Graph, ids: Ids, next: nat, ns: seq<Path>, ord: Order, recs: seq<Record>, id: nat) returns (n: Path)
    requires SavedBy(g, ids, next, ns, ord, recs) && id in ById(recs)
    ensures n in g && n in ids && ids[n] == id
    ensures forall dep | dep in ById(recs)[id].deps :: exists d :: d in g[n] && d in ids && ids[d] == dep
  {
    RecordOf(ids, next, ord, ns, recs);
    n :| n in ns && ids[n] == id;
    assert n in Members(ns);
    var r := ById(recs)[id];
    assert Writes(ids, ord, n, r) && Members(ord[n]) == g[n];
    forall dep | dep in r.deps ensures exists d :: d in g[n] && d in ids && ids[d] == dep {
      var j :| 0 <= j < |r.deps| && r.deps[j] == dep;
      assert ord[n][j] in Members(ord[n]);
    }
  }

  ghost predicate CanonicalGraph(canonical: Path -> Path, g: Graph) {
    IsGraph(g) && forall n | n in g :: n !in g[n] && canonical(n) == n
  }

  lemma SavedStates(canonical: Path -> Path, g: Graph, ids: Ids, next: nat, ns: seq<Path>, ord: Order,
                    recs: seq<Record>, a: Path, b: Path)
    requires CanonicalGraph(canonical, g) && SavedBy(g, ids, next, ns, ord, recs)
    ensures b in Succ(g, a) <==> States(canonical, ById(recs), a, b)
  {
    var m := ById(recs);
    if b in Succ(g, a) {
      PairOf(g, ids, next, ns, ord, recs, a, b);
      PairOf(g, ids, next, ns, ord, recs, b, a);
      assert StatedBy(canonical, m, a, b, ids[a], ids[b]);
    }
    if id: nat, dep: nat :| StatedBy(canonical, m, a, b, id, dep) {
      var n := NumberOf(g, ids, next, ns, ord, recs, id);
      var d := NumberOf(g, ids, next, ns, ord, recs, dep);
      PairOf(g, ids, next, ns, ord, recs, n, d);
      PairOf(g, ids, next, ns, ord, recs, d, n);
    }
  }

  lemma SavedIsGood(canonical: Path -> Path, g: Graph, ids: Ids, next: nat, ns: seq<Path>, ord: Order,
                    recs: seq<Record>, id: nat, dep: nat)
    requires CanonicalGraph(canonical, g) && SavedBy(g, ids, next, ns, ord, recs)
    ensures !Bad(canonical, ById(recs), id, dep)
  {
    if id in ById(recs) && dep in ById(recs)[id].deps {
      var n := NumberOf(g, ids, next, ns, ord, recs, id);
      var d :| d in g[n] && d in ids && ids[d] == dep;
      PairOf(g, ids, next, ns, ord, recs, n, d);
      PairOf(g, ids, next, ns, ord, recs, d, n);
    }
  }

  lemma SavedNodes(canonical: Path -> Path, g: Graph, ids: Ids, next: nat, ns: seq<Path>, ord: Order, recs: seq<Record>)
    requires CanonicalGraph(canonical, g) && SavedBy(g, ids, next, ns, ord, recs)
    ensures Stable(canonical, recs) && Nodes(canonical, recs) == g.Keys
  {
    forall i | 0 <= i < |recs| ensures recs[i].path == ns[i] && ns[i] in g {
      assert Writes(ids, ord, ns[i], recs[i]) && ns[i] in Members(ns);
    }
    forall n | n in g ensures n in Nodes(canonical, recs) {
      assert n in Members(ns);
      var i :| 0 <= i < |ns| && ns[i] == n;
      assert recs[i] in recs;
    }
  }

  /** Whatever the orders, what is saved can be read, and the graph read is the graph saved. */
  lemma SavedLoads(canonical: Path -> Path, g: Graph, recs: seq<Record>)
    requires CanonicalGraph(canonical, g) && Saved(g, recs)
    ensures Stable(canonical, recs) && Loadable(canonical, recs) && LoadsTo(canonical, recs, g)
  {
    var ids, next, ns, ord :| SavedBy(g, ids, next, ns, ord, recs);
    SavedNodes(canonical, g, ids, next, ns, ord, recs);
    forall id: nat, dep: nat ensures !Bad(canonical, ById(recs), id, dep) {
      SavedIsGood(canonical, g, ids, next, ns, ord, recs, id, dep);
    }
    forall a, b ensures b in Succ(g, a) <==> States(canonical, ById(recs), a, b) {
      SavedStates(canonical, g, ids, next, ns, ord, recs, a, b);
    }
  }

  lemma SameGraph(g: Graph, h: Graph)
    requires g.Keys == h.Keys && forall a, b :: b in Succ(g, a) <==> b in Succ(h, a)
    ensures g == h
  {
    forall n | n in g ensures g[n] == h[n] {
      forall b ensures b in g[n] <==> b in h[n] {
        assert b in Succ(g, n) <==> b in Succ(h, n);
      }
    }
  }

  /** The records determine both edge tables. */
  lemma LoadedIsUnique(canonical: Path -> Path, recs: seq<Record>, g: Graph, r: Graph, g': Graph, r': Graph)
    requires LoadsTo(canonical, recs, g) && LoadsTo(canonical, recs, g')
    requires WellFormed(canonical, g, r) && WellFormed(canonical, g', r')
    ensures g' == g && r' == r
  {
    SameGraph(g, g');
    forall a, b ensures b in Succ(r, a) <==> b in Succ(r', a) {
      assert a in Succ(g, b) <==> b in Succ(r, a);
    }
    SameGraph(r, r');
  }

  /** Saving and reading back a graph gives the same nodes and edges in both directions. */
  method SaveAndLoad(g: BuildGraph, ns: seq<Path>, ord: Order) returns (ok: bool, g': BuildGraph)
    requires g.Valid() && Enumerates(g.deps, ns, ord)
    ensures ok && g'.Valid() && g'.deps == g.deps && g'.reverseDeps == g.reverseDeps
  {
    var saver := new Saver();
    assert forall n | n in ns :: n in Members(ns);
    var recs := saver.Save(ns, ord);
    assert SavedBy(g.deps, saver.pathToId, saver.nextId, ns, ord, recs);
    SavedLoads(g.canonical, g.deps, recs);
    ok, g' := Load(g.canonical, recs);
    LoadedIsUnique(g.canonical, recs, g.deps, g.reverseDeps, g'.deps, g'.reverseDeps);
  }
}
