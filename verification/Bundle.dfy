/**
 The paths of the bundle layout (www/d3.v2.js): from the source of a link up to the least common ancestor
 and down to its target.
 */
module Bundle {
  import opened Options

  type Node = nat

  /** A rooted tree: every node but the root has a parent that is one level above it. */
  datatype Hierarchy = Hierarchy(root: Node, parent: map<Node, Node>, depth: map<Node, nat>)

  /** A node that has a parent one level above, or the root; or no node at all. */
  ghost predicate Placed(h: Hierarchy, n: Node) {
    if n in h.parent then n in h.depth && h.parent[n] in h.depth && h.depth[n] == h.depth[h.parent[n]] + 1
    else n in h.depth ==> n == h.root && h.depth[n] == 0
  }

  ghost predicate Valid(h: Hierarchy) {
    h.root in h.depth && h.root !in h.parent && forall n :: Placed(h, n)
  }

  ghost predicate IsAncestor(h: Hierarchy, x: Node, n: Node)
    requires Valid(h) && n in h.depth
    decreases h.depth[n]
  {
    assert Placed(h, n);
    x == n || (n in h.parent && IsAncestor(h, x, h.parent[n]))
  }

  /** A common ancestor, and the deepest one. */
  ghost predicate IsLca(h: Hierarchy, x: Node, a: Node, b: Node)
    requires Valid(h) && a in h.depth && b in h.depth
  {
    && x in h.depth && IsAncestor(h, x, a) && IsAncestor(h, x, b)
    && forall y | IsAncestor(h, y, a) && IsAncestor(h, y, b) :: y in h.depth && h.depth[y] <= h.depth[x]
  }

  // --------------------------------------------------------------- the list of ancestors

  /** The entry has its parent behind it, or is the last one, and stands where its depth says. */
  ghost predicate LinkAt(h: Hierarchy, s: seq<Node>, i: nat) {
    && i < |s| && s[i] in h.depth && h.depth[s[i]] == |s| - 1 - i
    && (i + 1 < |s| ==> s[i] in h.parent && h.parent[s[i]] == s[i+1])
  }

  /** The nodes from one node up to the root. */
  ghost predicate IsChain(h: Hierarchy, s: seq<Node>) {
    s != [] && forall i | 0 <= i < |s| :: LinkAt(h, s, i)
  }

  lemma ChainEnds(h: Hierarchy, s: seq<Node>)
    requires Valid(h) && IsChain(h, s)
    ensures s[|s|-1] == h.root
  {
    assert LinkAt(h, s, |s| - 1) && Placed(h, s[|s|-1]);
  }

  lemma ChainTail(h: Hierarchy, s: seq<Node>)
    requires IsChain(h, s) && |s| > 1
    ensures IsChain(h, s[1..])
  {
    forall i | 0 <= i < |s| - 1 ensures LinkAt(h, s[1..], i) {
      assert LinkAt(h, s, i + 1);
    }
  }

  /** The list of a node holds its ancestors. */
  lemma {:induction false} ChainHolds(h: Hierarchy, s: seq<Node>, x: Node)
    requires Valid(h) && IsChain(h, s)
    ensures s[0] in h.depth && (IsAncestor(h, x, s[0]) <==> x in s)
    decreases |s|
  {
    assert LinkAt(h, s, 0) && Placed(h, s[0]);
    assert s == [s[0]] + s[1..];
    if |s| == 1 {
    } else {
      ChainTail(h, s);
      ChainHolds(h, s[1..], x);
    }
  }

  /** The list so far, from `n` to just below `node`. */
  ghost predicate Climbing(h: Hierarchy, s: seq<Node>, n: Node, node: Node) {
    && n in h.depth && node in h.depth && |s| + h.depth[node] == h.depth[n]
    && (s == [] ==> node == n) && (s != [] ==> s[0] == n)
    && forall i | 0 <= i < |s| :: ClimbAt(h, s, n, node, i)
  }

  ghost predicate ClimbAt(h: Hierarchy, s: seq<Node>, n: Node, node: Node, i: nat)
    requires n in h.depth
  {
    && i < |s| && s[i] in h.depth && h.depth[s[i]] == h.depth[n] - i
    && s[i] in h.parent && h.parent[s[i]] == if i + 1 < |s| then s[i+1] else node
  }

  lemma Climb(h: Hierarchy, s: seq<Node>, n: Node, node: Node)
    requires Valid(h) && Climbing(h, s, n, node) && node in h.parent
    ensures Climbing(h, s + [node], n, h.parent[node])
  {
    var s' := s + [node];
    assert Placed(h, node);
    forall i | 0 <= i < |s'| ensures ClimbAt(h, s', n, h.parent[node], i) {
      assert i < |s| ==> ClimbAt(h, s, n, node, i);
    }
  }

  lemma Climbed(h: Hierarchy, s: seq<Node>, n: Node, node: Node)
    requires Valid(h) && Climbing(h, s, n, node) && node !in h.parent
    ensures IsChain(h, s + [node]) && (s + [node])[0] == n
  {
    var s' := s + [node];
    assert Placed(h, node);
    forall i | 0 <= i < |s'| ensures LinkAt(h, s', i) {
      assert i < |s| ==> ClimbAt(h, s, n, node, i);
    }
  }

  method Ancestors(h: Hierarchy, n: Node) returns (ancestors: seq<Node>)
    requires Valid(h) && n in h.depth
    ensures IsChain(h, ancestors) && ancestors[0] == n
  {
    ancestors := [];
    var node := n;
    while node in h.parent
      invariant Climbing(h, ancestors, n, node)
      decreases h.depth[node]
    {
      Climb(h, ancestors, n, node);
      ancestors := ancestors + [node];
      node := h.parent[node];
    }
    Climbed(h, ancestors, n, node);
    ancestors := ancestors + [node];
  }

  // ------------------------------------------------------- the least common ancestor

  /** The node of a list at the given depth. */
  function At(s: seq<Node>, d: nat): Node
    requires d < |s|
  {
    s[|s|-1-d]
  }

  /** The two lists have the same node at every depth below `i`. */
  ghost predicate Agree(s: seq<Node>, t: seq<Node>, i: nat) {
    i <= |s| && i <= |t| && forall d: nat | d < i :: At(s, d) == At(t, d)
  }

  /** Lists that have the same node at one depth agree above it. */
  lemma {:induction false} AgreeAbove(h: Hierarchy, s: seq<Node>, t: seq<Node>, d: nat, e: nat)
    requires IsChain(h, s) && IsChain(h, t) && e <= d < |s| && d < |t| && At(s, d) == At(t, d)
    ensures At(s, e) == At(t, e)
    decreases d - e
  {
    if e == d {
    } else {
      AgreeAbove(h, s, t, d, e + 1);
      assert LinkAt(h, s, |s| - 2 - e) && LinkAt(h, t, |t| - 2 - e);
    }
  }

  /** A node that both lists have is at the same depth in both, and above where they part. */
  lemma SharedIsAbove(h: Hierarchy, s: seq<Node>, t: seq<Node>, y: Node, i: nat)
    requires IsChain(h, s) && IsChain(h, t) && y in s && y in t
    requires i < |s| && i < |t| ==> At(s, i) != At(t, i)
    ensures y in h.depth && h.depth[y] < i && h.depth[y] < |s| && h.depth[y] < |t|
    ensures At(s, h.depth[y]) == y == At(t, h.depth[y])
  {
    var k :| 0 <= k < |s| && s[k] == y;
    var l :| 0 <= l < |t| && t[l] == y;
    assert LinkAt(h, s, k) && LinkAt(h, t, l);
    var d := h.depth[y];
    assert At(s, d) == y == At(t, d);
    if i <= d {
      AgreeAbove(h, s, t, d, i);
    }
  }

  lemma DeepestShared(h: Hierarchy, s: seq<Node>, t: seq<Node>, i: nat)
    requires Valid(h) && IsChain(h, s) && IsChain(h, t) && 0 < i && Agree(s, t, i)
    requires i < |s| && i < |t| ==> At(s, i) != At(t, i)
    ensures s[0] in h.depth && t[0] in h.depth && IsLca(h, At(s, i - 1), s[0], t[0])
  {
    var x := At(s, i - 1);
    ChainHolds(h, s, x);
    ChainHolds(h, t, x);
    assert LinkAt(h, s, |s| - i);
    forall y | IsAncestor(h, y, s[0]) && IsAncestor(h, y, t[0]) ensures y in h.depth && h.depth[y] <= h.depth[x] {
      ChainHolds(h, s, y);
      ChainHolds(h, t, y);
      SharedIsAbove(h, s, t, y, i);
    }
  }

  /** What `pop` gives after `i` nodes have been taken off the end: nothing for an empty list. */
  function Top(s: seq<Node>, i: nat): Option<Node> {
    if i < |s| then Some(At(s, i)) else None
  }

  /** Lists of two different nodes do not both run out while they agree. */
  lemma NotBoth(s: seq<Node>, t: seq<Node>, i: nat)
    requires s != [] && t != [] && s[0] != t[0] && Agree(s, t, i) && Top(s, i) == Top(t, i)
    ensures i < |s| && i < |t|
  {
    if i > 0 {
      assert At(s, i - 1) == At(t, i - 1);
    }
  }

  /** What is left of a list after some nodes have been taken off its end. */
  ghost function Left(s: seq<Node>, i: nat): seq<Node> {
    if i < |s| then s[..|s|-i] else []
  }

  /** The last node of what is left of a list, if there is one, and the others. */
  method Pop(left: seq<Node>, ghost s: seq<Node>, ghost i: nat) returns (n: Option<Node>, rest: seq<Node>)
    requires left == Left(s, i)
    ensures n == Top(s, i) && rest == Left(s, i + 1)
  {
    if left == [] {
      return None, [];
    }
    return Some(left[|left|-1]), left[..|left|-1];
  }

  /** The node above the depth `i` at which the two lists part. */
  ghost predicate IsLastAgreed(s: seq<Node>, t: seq<Node>, i: nat, x: Node) {
    0 < i && Agree(s, t, i) && x == At(s, i - 1) && (i < |s| && i < |t| ==> At(s, i) != At(t, i))
  }

  /** The lists are read from their ends as long as they agree; they cannot both run out. */
  method LastAgreed(s: seq<Node>, t: seq<Node>) returns (shared: Option<Node>)
    requires s != [] && t != [] && s[0] != t[0] && At(s, 0) == At(t, 0)
    ensures shared.Some? && exists i: nat :: IsLastAgreed(s, t, i, shared.value)
  {
    ghost var i: nat;
    var aNode, bNode, aNodes, bNodes;
    assert s == Left(s, 0) && t == Left(t, 0);
    aNode, aNodes := Pop(s, s, 0);
    bNode, bNodes := Pop(t, t, 0);
    shared, i := None, 0;
    while aNode == bNode
      invariant Agree(s, t, i) && aNode == Top(s, i) && bNode == Top(t, i)
      invariant aNodes == Left(s, i + 1) && bNodes == Left(t, i + 1)
      invariant if i == 0 then aNode == bNode else shared == Some(At(s, i - 1))
      decreases |s| - i
    {
      NotBoth(s, t, i);
      shared := aNode;
      i := i + 1;
      aNode, aNodes := Pop(aNodes, s, i);
      bNode, bNodes := Pop(bNodes, t, i);
    }
    assert IsLastAgreed(s, t, i, shared.value);
  }

  method LeastCommonAncestor(h: Hierarchy, a: Node, b: Node) returns (shared: Option<Node>)
    requires Valid(h) && a in h.depth && b in h.depth
    ensures shared.Some? && IsLca(h, shared.value, a, b)
  {
    if a == b {
      LcaOfOne(h, a);
      return Some(a);
    }
    var aNodes := Ancestors(h, a);
    var bNodes := Ancestors(h, b);
    ChainEnds(h, aNodes);
    ChainEnds(h, bNodes);
    shared := LastAgreed(aNodes, bNodes);
    ghost var i: nat :| IsLastAgreed(aNodes, bNodes, i, shared.value);
    DeepestShared(h, aNodes, bNodes, i);
  }

  lemma {:induction false} AncestorAbove(h: Hierarchy, y: Node, a: Node)
    requires Valid(h) && a in h.depth && IsAncestor(h, y, a)
    ensures y in h.depth && h.depth[y] <= h.depth[a]
    decreases h.depth[a]
  {
    if y == a {
    } else {
      assert Placed(h, a);
      AncestorAbove(h, y, h.parent[a]);
    }
  }

  lemma LcaOfOne(h: Hierarchy, a: Node)
    requires Valid(h) && a in h.depth
    ensures IsLca(h, a, a, a)
  {
    forall y | IsAncestor(h, y, a) ensures y in h.depth && h.depth[y] <= h.depth[a] {
      AncestorAbove(h, y, a);
    }
  }

  // ------------------------------------------------------------------------ the path

  ghost predicate Adjacent(h: Hierarchy, m: Node, n: Node) {
    (m in h.parent && h.parent[m] == n) || (n in h.parent && h.parent[n] == m)
  }

  /** A way through the tree that visits no node twice. */
  ghost predicate IsSimplePath(h: Hierarchy, p: seq<Node>, a: Node, b: Node) {
    && p != [] && p[0] == a && p[|p|-1] == b
    && (forall i | 0 <= i < |p| :: p[i] in h.depth)
    && (forall i | 0 < i < |p| :: Adjacent(h, p[i-1], p[i]))
    && (forall i, j | 0 <= i < j < |p| :: p[i] != p[j])
  }

  /** Up the first list to the node at depth `d`, and from there down along the second. */
  ghost predicate UpAndDown(p: seq<Node>, s: seq<Node>, t: seq<Node>, d: nat)
    requires d < |s| && d < |t|
  {
    && |p| == (|s| - 1 - d) + (|t| - 1 - d) + 1
    && (forall i | 0 <= i <= |s| - 1 - d :: p[i] == s[i])
    && (forall j | 0 <= j <= |t| - 1 - d :: p[|p|-1-j] == t[j])
  }

  /** Where the two lists part. */
  ghost predicate Parts(s: seq<Node>, t: seq<Node>, d: nat) {
    d < |s| && d < |t| && At(s, d) == At(t, d) && (d + 1 < |s| && d + 1 < |t| ==> At(s, d + 1) != At(t, d + 1))
  }

  lemma HasChain(h: Hierarchy, n: Node) returns (s: seq<Node>)
    requires Valid(h) && n in h.depth
    ensures IsChain(h, s) && s[0] == n
    decreases h.depth[n]
  {
    s := [n];
    assert Placed(h, n);
    if n !in h.parent {
    } else {
      var more := HasChain(h, h.parent[n]);
      s := [n] + more;
      assert LinkAt(h, more, 0);
      forall i | 0 <= i < |s| ensures LinkAt(h, s, i) {
        assert i > 0 ==> LinkAt(h, more, i - 1);
      }
    }
  }

  lemma NodeAt(h: Hierarchy, s: seq<Node>, x: Node)
    requires IsChain(h, s) && x in s
    ensures x in h.depth && h.depth[x] < |s| && At(s, h.depth[x]) == x
  {
    var k :| 0 <= k < |s| && s[k] == x;
    assert LinkAt(h, s, k);
  }

  lemma LcaParts(h: Hierarchy, s: seq<Node>, t: seq<Node>, x: Node)
    requires Valid(h) && IsChain(h, s) && IsChain(h, t) && s[0] in h.depth && t[0] in h.depth && IsLca(h, x, s[0], t[0])
    ensures Parts(s, t, h.depth[x]) && At(s, h.depth[x]) == x
  {
    ChainHolds(h, s, x);
    ChainHolds(h, t, x);
    NodeAt(h, s, x);
    NodeAt(h, t, x);
    var d := h.depth[x] + 1;
    if d < |s| && d < |t| {
      var y := At(s, d);
      ChainHolds(h, s, y);
      ChainHolds(h, t, y);
      assert LinkAt(h, s, |s| - 1 - d);
    }
  }

  // It is a simple path.

  lemma PathSteps(h: Hierarchy, p: seq<Node>, s: seq<Node>, t: seq<Node>, d: nat, i: nat)
    requires IsChain(h, s) && IsChain(h, t) && Parts(s, t, d) && UpAndDown(p, s, t, d) && i < |p|
    ensures p[i] in h.depth && (i > 0 ==> Adjacent(h, p[i-1], p[i]))
  {
    var m := |s| - 1 - d;
    if i <= m {
      assert LinkAt(h, s, i) && (i > 0 ==> LinkAt(h, s, i - 1));
    } else {
      var j := |p| - 1 - i;
      assert LinkAt(h, t, j) && p[i] == p[|p|-1-j] == t[j] && p[i-1] == p[|p|-1-(j+1)] == t[j+1];
    }
  }

  lemma PathDistinct(h: Hierarchy, p: seq<Node>, s: seq<Node>, t: seq<Node>, d: nat, i: nat, j: nat)
    requires IsChain(h, s) && IsChain(h, t) && Parts(s, t, d) && UpAndDown(p, s, t, d) && i < j < |p|
    ensures p[i] != p[j]
  {
    var m := |s| - 1 - d;
    if j <= m {
      assert LinkAt(h, s, i) && LinkAt(h, s, j);
    } else {
      var l := |p| - 1 - j;
      assert LinkAt(h, t, l) && p[j] == p[|p|-1-l] == t[l];
      if i > m {
        var k := |p| - 1 - i;
        assert LinkAt(h, t, k) && p[i] == p[|p|-1-k] == t[k];
      } else if p[i] == p[j] {
        SharedIsAbove(h, s, t, p[j], d + 1);
      }
    }
  }

  lemma PathIsSimple(h: Hierarchy, p: seq<Node>, s: seq<Node>, t: seq<Node>, d: nat)
    requires IsChain(h, s) && IsChain(h, t) && Parts(s, t, d) && UpAndDown(p, s, t, d)
    ensures IsSimplePath(h, p, s[0], t[0])
  {
    assert p[|p|-1-0] == t[0];
    forall i | 0 <= i < |p| ensures p[i] in h.depth && (i > 0 ==> Adjacent(h, p[i-1], p[i])) {
      PathSteps(h, p, s, t, d, i);
    }
    forall i, j | 0 <= i < j < |p| ensures p[i] != p[j] {
      PathDistinct(h, p, s, t, d, i, j);
    }
  }

  // Every simple path is this one.

  ghost predicate GoesUp(h: Hierarchy, q: seq<Node>, i: nat) {
    i + 1 < |q| && q[i] in h.parent && h.parent[q[i]] == q[i+1]
  }

  ghost predicate GoesDown(h: Hierarchy, q: seq<Node>, i: nat) {
    i + 1 < |q| && q[i+1] in h.parent && h.parent[q[i+1]] == q[i]
  }

  /** The number of steps up before the first step down. */
  lemma StepsUp(h: Hierarchy, q: seq<Node>, k: nat) returns (m: nat)
    requires k < |q| && forall i: nat | i < k :: GoesUp(h, q, i)
    ensures m < |q| && (forall i: nat | i < m :: GoesUp(h, q, i)) && !GoesUp(h, q, m)
    decreases |q| - k
  {
    m := k;
    if !GoesUp(h, q, k) {
    } else {
      m := StepsUp(h, q, k + 1);
    }
  }

  /** After a step down there is no step up, which would lead back. */
  lemma {:induction false} StaysDown(h: Hierarchy, q: seq<Node>, a: Node, b: Node, m: nat, i: nat)
    requires IsSimplePath(h, q, a, b) && !GoesUp(h, q, m) && m <= i && i + 1 < |q|
    ensures GoesDown(h, q, i)
    decreases i
  {
    assert Adjacent(h, q[i], q[i+1]);
    if m == i {
    } else {
      StaysDown(h, q, a, b, m, i - 1);
      assert q[i-1] != q[i+1];
    }
  }

  lemma {:induction false} UpPart(h: Hierarchy, q: seq<Node>, s: seq<Node>, m: nat, i: nat)
    requires Valid(h) && IsChain(h, s) && i <= m < |q| && q[0] == s[0]
    requires forall k: nat | k < m :: GoesUp(h, q, k)
    ensures i < |s| && q[i] == s[i]
    decreases i
  {
    if i == 0 {
    } else {
      UpPart(h, q, s, m, i - 1);
      assert GoesUp(h, q, i - 1) && LinkAt(h, s, i - 1) && Placed(h, s[i-1]);
    }
  }

  lemma {:induction false} DownPart(h: Hierarchy, q: seq<Node>, a: Node, t: seq<Node>, m: nat, j: nat)
    requires Valid(h) && IsChain(h, t) && IsSimplePath(h, q, a, t[0]) && !GoesUp(h, q, m) && m < |q| && m + j < |q|
    ensures j < |t| && q[|q|-1-j] == t[j]
    decreases j
  {
    if j == 0 {
    } else {
      DownPart(h, q, a, t, m, j - 1);
      StaysDown(h, q, a, t[0], m, |q| - 1 - j);
      assert LinkAt(h, t, j - 1) && Placed(h, t[j-1]);
    }
  }

  lemma SimpleIsUpAndDown(h: Hierarchy, q: seq<Node>, s: seq<Node>, t: seq<Node>, d: nat)
    requires Valid(h) && IsChain(h, s) && IsChain(h, t) && Parts(s, t, d) && IsSimplePath(h, q, s[0], t[0])
    ensures UpAndDown(q, s, t, d)
  {
    var m := StepsUp(h, q, 0);
    var n := |q| - 1 - m;
    forall i | 0 <= i <= m ensures i < |s| && q[i] == s[i] {
      UpPart(h, q, s, m, i);
    }
    forall j | 0 <= j <= n ensures j < |t| && q[|q|-1-j] == t[j] {
      DownPart(h, q, s[0], t, m, j);
    }
    assert LinkAt(h, s, m) && LinkAt(h, t, n) && q[m] == q[|q|-1-n];
    SharedIsAbove(h, s, t, q[m], d + 1);
    var e := h.depth[q[m]];
    assert m == |s| - 1 - e && n == |t| - 1 - e && e <= d;
    assert q[|s|-1-d] == At(s, d) && q[|q|-1-(|t|-1-d)] == At(t, d);
  }

  lemma OnlyOne(p: seq<Node>, q: seq<Node>, s: seq<Node>, t: seq<Node>, d: nat)
    requires d < |s| && d < |t| && UpAndDown(p, s, t, d) && UpAndDown(q, s, t, d)
    ensures p == q
  {
    var m := |s| - 1 - d;
    forall i | 0 <= i < |p| ensures p[i] == q[i] {
      if i > m {
        var j := |p| - 1 - i;
        assert p[|p|-1-j] == t[j] == q[|q|-1-j];
      }
    }
  }

  // ------------------------------------------------------------------- building the path

  /** Up from the source: the nodes of its list to the common ancestor. */
  method GoUp(h: Hierarchy, source: Node, lca: Node, ghost s: seq<Node>) returns (points: seq<Node>)
    requires Valid(h) && IsChain(h, s) && s[0] == source && lca in s
    ensures lca in h.depth && h.depth[lca] < |s| && points == s[..|s| - h.depth[lca]]
  {
    NodeAt(h, s, lca);
    var start := source;
    points := [start];
    while start != lca
      invariant 0 < |points| <= |s| - h.depth[lca] && points == s[..|points|] && start == points[|points|-1]
      decreases |s| - |points|
    {
      assert LinkAt(h, s, |points| - 1);
      start := h.parent[start];
      points := points + [start];
    }
    assert LinkAt(h, s, |points| - 1);
  }

  /** Down to the target: each node is put in front of those below it. */
  method GoDown(h: Hierarchy, target: Node, lca: Node, up: seq<Node>, ghost t: seq<Node>) returns (points: seq<Node>)
    requires Valid(h) && IsChain(h, t) && t[0] == target && lca in t
    ensures lca in h.depth && h.depth[lca] < |t|
    ensures |points| == |up| + (|t| - 1 - h.depth[lca]) && points[..|up|] == up
    ensures forall j | 0 <= j < |t| - 1 - h.depth[lca] :: points[|points|-1-j] == t[j]
  {
    NodeAt(h, t, lca);
    var end, k := target, |up|;
    points := up;
    while end != lca
      invariant k <= |points| <= k + |t| - 1 - h.depth[lca] && points[..k] == up && end == t[|points|-k]
      invariant forall j | 0 <= j < |points| - k :: points[|points|-1-j] == t[j]
      decreases k + |t| - |points|
    {
      assert LinkAt(h, t, |points| - k);
      points := points[..k] + [end] + points[k..];
      end := h.parent[end];
    }
    assert LinkAt(h, t, |points| - k);
  }

  /** The path of a link is the only way through the tree from its source to its target. */
  method BundlePath(h: Hierarchy, source: Node, target: Node) returns (points: seq<Node>)
    requires Valid(h) && source in h.depth && target in h.depth
    ensures IsSimplePath(h, points, source, target)
    ensures forall q :: IsSimplePath(h, q, source, target) ==> q == points
  {
    var lca := LeastCommonAncestor(h, source, target);
    ghost var s := HasChain(h, source);
    ghost var t := HasChain(h, target);
    LcaParts(h, s, t, lca.value);
    ghost var d := h.depth[lca.value];
    var up := GoUp(h, source, lca.value, s);
    points := GoDown(h, target, lca.value, up, t);
    assert UpAndDown(points, s, t, d);
    PathIsSimple(h, points, s, t, d);
    forall q | IsSimplePath(h, q, source, target) ensures q == points {
      SimpleIsUpAndDown(h, q, s, t, d);
      OnlyOne(points, q, s, t, d);
    }
  }
}
