/**
 The treemap of a whole tree (www/d3.v2.js): scaling, padding and the recursion over the nodes, and what
 they give together.
 */
module TreemapLayout {
  import opened Options
  import opened TreemapRows
  import opened Squarify

  datatype Tree = Tree(value: real, children: seq<Tree>)

  /** The same tree with a rectangle for each node. */
  datatype Layout = Layout(rect: Rect, children: seq<Layout>)

  datatype Padding = Padding(top: real, right: real, bottom: real, left: real)

  const NO_PADDING := Padding(0.0, 0.0, 0.0, 0.0)

  /** The room for the children of a node; where the padding leaves none, half way between the edges. */
  function Pad(r: Rect, p: Padding): Rect {
    var dx, dy := r.dx - p.right - p.left, r.dy - p.top - p.bottom;
    Rect(r.x + p.left + (if dx < 0.0 then dx / 2.0 else 0.0),
         r.y + p.top + (if dy < 0.0 then dy / 2.0 else 0.0),
         if dx < 0.0 then 0.0 else dx,
         if dy < 0.0 then 0.0 else dy)
  }

  lemma PadSized(r: Rect, p: Padding)
    ensures Sized(Pad(r, p))
    ensures p == NO_PADDING && Sized(r) ==> Pad(r, p) == r
  {
  }

  /** The room is what is inside of all four margins. */
  lemma PadPoints(r: Rect, p: Padding, px: real, py: real)
    ensures Has(Pad(r, p), px, py) <==> r.x + p.left <= px < r.x + r.dx - p.right &&
                                        r.y + p.top <= py < r.y + r.dy - p.bottom
  {
  }

  /** Where the margins meet, there is an edge half way between them. */
  lemma PadMeets(r: Rect, p: Padding)
    ensures p.left + p.right > r.dx ==>
              Pad(r, p).dx == 0.0 && Pad(r, p).x == ((r.x + p.left) + (r.x + r.dx - p.right)) / 2.0
    ensures p.top + p.bottom > r.dy ==>
              Pad(r, p).dy == 0.0 && Pad(r, p).y == ((r.y + p.top) + (r.y + r.dy - p.bottom)) / 2.0
  {
  }

  ghost predicate Inward(p: Padding) {
    p.top >= 0.0 && p.right >= 0.0 && p.bottom >= 0.0 && p.left >= 0.0
  }

  lemma PadInside(r: Rect, p: Padding, px: real, py: real)
    requires Sized(r) && Inward(p)
    ensures One(Pad(r, p), px, py) <= One(r, px, py)
  {
  }

  // ---------------------------------------------------------------------- scaling

  function Area(r: Rect): real { r.dx * r.dy }

  function PerValue(area: real, value: real): real
    requires value != 0.0
  {
    area / value
  }

  /** The area of a child: never negative, and its value times the factor where that is positive. */
  function Scaled(value: real, k: real): (area: real)
    ensures area >= 0.0
  {
    var area := value * (if k < 0.0 then 0.0 else k);
    if area <= 0.0 then 0.0 else area
  }

  /** A child has an area exactly if its value and the factor are positive, and then their product. */
  lemma ScaledShare(value: real, k: real)
    ensures Scaled(value, k) > 0.0 <==> value > 0.0 && k > 0.0
    ensures Scaled(value, k) > 0.0 ==> Product(value, k, Scaled(value, k))
  {
    if value > 0.0 && k > 0.0 {
      assert value * k > 0.0;
    } else if k > 0.0 {
      assert value * k <= 0.0;
    }
  }

  /** The areas of the children of a node in its padded rectangle, where these are finite. */
  function Areas(t: Tree, rect: Rect): (areas: seq<real>)
    ensures |areas| == |t.children| && NonNegative(areas)
  {
    seq(|t.children|, i requires 0 <= i < |t.children| =>
      if t.value == 0.0 then 0.0 else Scaled(t.children[i].value, PerValue(Area(rect), t.value)))
  }

  /** A node of value zero makes the factor infinite, and so the area of every child of positive value. */
  predicate Infinite(t: Tree, rect: Rect) {
    t.value == 0.0 && Area(rect) > 0.0 && exists i :: 0 <= i < |t.children| && t.children[i].value > 0.0
  }

  method Scale(t: Tree, rect: Rect) returns (areas: Option<seq<real>>)
    ensures areas == if Infinite(t, rect) then None else Some(Areas(t, rect))
  {
    var s: seq<real> := [];
    while |s| < |t.children|
      invariant |s| <= |t.children| && forall i | 0 <= i < |s| :: s[i] == Areas(t, rect)[i]
      invariant t.value == 0.0 && Area(rect) > 0.0 ==> forall i | 0 <= i < |s| :: t.children[i].value <= 0.0
    {
      var child := t.children[|s|];
      if t.value == 0.0 && Area(rect) > 0.0 && child.value > 0.0 {
        return None;
      }
      s := s + [if t.value == 0.0 then 0.0 else Scaled(child.value, PerValue(Area(rect), t.value))];
    }
    assert s == Areas(t, rect);
    return Some(s);
  }

  // --------------------------------------------------------------------- the layout

  function Rects(ls: seq<Layout>): (rects: seq<Rect>)
    ensures |rects| == |ls|
  {
    seq(|ls|, i requires 0 <= i < |ls| => ls[i].rect)
  }

  /** The cells of the children come in squarified rows that tile the room, and without rounding have their areas. */
  ghost predicate Filled(round: real -> real, ratio: real, t: Tree, room: Rect, rects: seq<Rect>) {
    && Tiles(rects, room) && Squarified(round, ratio, Areas(t, room), room, rects)
    && (Identity(round) && Measures(room, Sum(Areas(t, room))) ==> Exact(rects, Areas(t, room)))
  }

  /** At every node, the children fill the padded rectangle. */
  ghost predicate Laid(round: real -> real, pad: (Tree, nat) -> Padding, ratio: real, t: Tree, l: Layout, depth: nat)
    decreases t
  {
    var room := Pad(l.rect, pad(t, depth));
    && Sized(l.rect) && |l.children| == |t.children| && !Infinite(t, room)
    && (t.children != [] ==> Filled(round, ratio, t, room, Rects(l.children)))
    && forall i | 0 <= i < |t.children| :: Laid(round, pad, ratio, t.children[i], l.children[i], depth + 1)
  }

  /** No node of value zero has a child of positive value. */
  ghost predicate Balanced(t: Tree)
    decreases t
  {
    && (t.value == 0.0 ==> forall i | 0 <= i < |t.children| :: t.children[i].value <= 0.0)
    && forall i | 0 <= i < |t.children| :: Balanced(t.children[i])
  }

  /** Some node of the layout has a child whose area in the room of the node is infinite. */
  ghost predicate Meets(pad: (Tree, nat) -> Padding, t: Tree, l: Layout, depth: nat)
    decreases t
  {
    || Infinite(t, Pad(l.rect, pad(t, depth)))
    || exists i :: 0 <= i < |t.children| && i < |l.children| && Meets(pad, t.children[i], l.children[i], depth + 1)
  }

  lemma {:induction false} LaidMeetsNone(round: real -> real, pad: (Tree, nat) -> Padding, ratio: real,
                                         t: Tree, l: Layout, depth: nat)
    requires Laid(round, pad, ratio, t, l, depth)
    ensures !Meets(pad, t, l, depth)
    decreases t
  {
    forall i | 0 <= i < |t.children| ensures !Meets(pad, t.children[i], l.children[i], depth + 1) {
      LaidMeetsNone(round, pad, ratio, t.children[i], l.children[i], depth + 1);
    }
  }

  /** The first cells of a tiling. */
  ghost predicate StartsTiling(rects: seq<Rect>, room: Rect, n: nat) {
    exists cells :: |cells| == n && rects <= cells && Tiles(cells, room)
  }

  /** A layout as far as it got: the children before the last one it has are laid out in full. */
  ghost predicate Reached(round: real -> real, pad: (Tree, nat) -> Padding, ratio: real, t: Tree, l: Layout, depth: nat)
    decreases t
  {
    && Sized(l.rect) && |l.children| <= |t.children|
    && (l.children != [] ==>
          StartsTiling(Rects(l.children), Pad(l.rect, pad(t, depth)), |t.children|)
          && var last := |l.children| - 1; Reached(round, pad, ratio, t.children[last], l.children[last], depth + 1))
    && forall i | 0 <= i < |l.children| - 1 :: Laid(round, pad, ratio, t.children[i], l.children[i], depth + 1)
  }

  method Fill(round: real -> real, ratio: real, t: Tree, room: Rect, areas: seq<real>) returns (cells: array<Rect>)
    requires KeepsSign(round) && t.children != [] && Sized(room) && areas == Areas(t, room)
    ensures fresh(cells) && cells.Length == |t.children| && Filled(round, ratio, t, room, cells[..])
  {
    cells := Arrange(round, areas, room, ratio);
  }

  /**
   The layout of a node and everything below it.  There is none exactly when, as far as it got, some node has
   an infinite area to place; for a tree that has such a node at most at its root, this can be told before.
   */
  method SquarifyTree(round: real -> real, pad: (Tree, nat) -> Padding, ratio: real, t: Tree, rect: Rect, depth: nat)
    returns (l: Option<Layout>, ghost got: Layout)
    requires KeepsSign(round) && Sized(rect)
    ensures l.Some? ==> l.value == got && Laid(round, pad, ratio, t, got, depth)
    ensures got.rect == rect && (l.None? ==> Reached(round, pad, ratio, t, got, depth))
    ensures l.None? <==> Meets(pad, t, got, depth)
    ensures Infinite(t, Pad(rect, pad(t, depth))) ==> l.None?
    ensures (forall i | 0 <= i < |t.children| :: Balanced(t.children[i])) ==>
              (l.None? <==> Infinite(t, Pad(rect, pad(t, depth))))
    ensures Balanced(t) ==> l.Some?
    decreases t, 1
  {
    if t.children == [] {
      got := Layout(rect, []);
      return Some(Layout(rect, [])), got;
    }
    var room := Pad(rect, pad(t, depth));
    PadSized(rect, pad(t, depth));
    var areas := Scale(t, room);
    if areas.None? {
      got := Layout(rect, []);
      return None, got;
    }
    var cells := Fill(round, ratio, t, room, areas.value);
    var ls, part := SquarifyChildren(round, pad, ratio, t, cells, depth);
    got := Layout(rect, part);
    if ls.None? {
      StopsAt(round, pad, ratio, t, got, depth, cells[..]);
      return None, got;
    }
    AllLaid(round, pad, ratio, t, got, depth, cells[..]);
    return Some(Layout(rect, ls.value)), got;
  }

  /** The layouts of the children in their cells, up to the first one that has none. */
  method SquarifyChildren(round: real -> real, pad: (Tree, nat) -> Padding, ratio: real, t: Tree, cells: array<Rect>,
                          depth: nat)
    returns (ls: Option<seq<Layout>>, ghost got: seq<Layout>)
    requires KeepsSign(round) && cells.Length == |t.children| && AllSized(cells[..])
    ensures |got| <= |t.children| && forall i | 0 <= i < |got| :: got[i].rect == cells[i]
    ensures forall i | 0 <= i < |got| && (i < |got| - 1 || ls.Some?) ::
              Laid(round, pad, ratio, t.children[i], got[i], depth + 1)
    ensures ls.Some? ==> ls.value == got && |got| == |t.children|
    ensures ls.None? ==> got != [] && var last := |got| - 1;
                                      && Reached(round, pad, ratio, t.children[last], got[last], depth + 1)
                                      && Meets(pad, t.children[last], got[last], depth + 1)
    ensures (forall i | 0 <= i < |t.children| :: Balanced(t.children[i])) ==> ls.Some?
    decreases t, 0
  {
    var done: seq<Layout> := [];
    while |done| < |t.children|
      invariant |done| <= |t.children|
      invariant forall i | 0 <= i < |done| ::
                  done[i].rect == cells[i] && Laid(round, pad, ratio, t.children[i], done[i], depth + 1)
      decreases |t.children| - |done|
    {
      ghost var part;
      var child;
      assert cells[..][|done|] == cells[|done|];
      child, part := SquarifyTree(round, pad, ratio, t.children[|done|], cells[|done|], depth + 1);
      if child.None? {
        got := done + [part];
        return None, got;
      }
      done := done + [child.value];
    }
    got := done;
    return Some(done), got;
  }

  lemma AllLaid(round: real -> real, pad: (Tree, nat) -> Padding, ratio: real, t: Tree, l: Layout, depth: nat,
                rects: seq<Rect>)
    requires |l.children| == |t.children| == |rects| && Sized(l.rect) && !Infinite(t, Pad(l.rect, pad(t, depth)))
    requires Filled(round, ratio, t, Pad(l.rect, pad(t, depth)), rects)
    requires forall i | 0 <= i < |l.children| ::
               l.children[i].rect == rects[i] && Laid(round, pad, ratio, t.children[i], l.children[i], depth + 1)
    ensures Laid(round, pad, ratio, t, l, depth) && !Meets(pad, t, l, depth)
  {
    assert Rects(l.children) == rects;
    LaidMeetsNone(round, pad, ratio, t, l, depth);
  }

  /** A layout that stopped in a child. */
  lemma StopsAt(round: real -> real, pad: (Tree, nat) -> Padding, ratio: real, t: Tree, l: Layout, depth: nat,
                rects: seq<Rect>)
    requires l.children != [] && |l.children| <= |t.children| == |rects| && Sized(l.rect)
    requires Tiles(rects, Pad(l.rect, pad(t, depth)))
    requires forall i | 0 <= i < |l.children| :: l.children[i].rect == rects[i]
    requires forall i | 0 <= i < |l.children| - 1 :: Laid(round, pad, ratio, t.children[i], l.children[i], depth + 1)
    requires var last := |l.children| - 1;
             && Reached(round, pad, ratio, t.children[last], l.children[last], depth + 1)
             && Meets(pad, t.children[last], l.children[last], depth + 1)
    ensures Reached(round, pad, ratio, t, l, depth) && Meets(pad, t, l, depth)
  {
    assert Rects(l.children) <= rects;
    assert StartsTiling(Rects(l.children), Pad(l.rect, pad(t, depth)), |t.children|);
  }

  // --------------------------------------------------- the leaves of a tree do not overlap

  function Leaves(l: Layout): seq<Rect>
    decreases l, |l.children| + 1
  {
    if l.children == [] then [l.rect] else LeavesFrom(l, 0)
  }

  /** The leaves below the children from number `i` on. */
  function LeavesFrom(l: Layout, i: nat): seq<Rect>
    requires i <= |l.children|
    decreases l, |l.children| - i
  {
    if i == |l.children| then [] else Leaves(l.children[i]) + LeavesFrom(l, i + 1)
  }

  lemma CoverConcat(a: seq<Rect>, b: seq<Rect>, px: real, py: real)
    ensures Cover(a + b, px, py) == Cover(a, px, py) + Cover(b, px, py)
  {
    if a == [] {
      assert a + b == b;
    } else {
      assert (a + b)[1..] == a[1..] + b;
      CoverConcat(a[1..], b, px, py);
    }
  }

  ghost predicate AllInward(pad: (Tree, nat) -> Padding) {
    forall t, d :: Inward(pad(t, d))
  }

  ghost predicate Unpadded(pad: (Tree, nat) -> Padding) {
    forall t, d :: pad(t, d) == NO_PADDING
  }

  lemma {:induction false} LeavesCover(round: real -> real, pad: (Tree, nat) -> Padding, ratio: real,
                                       t: Tree, l: Layout, depth: nat, px: real, py: real)
    requires Laid(round, pad, ratio, t, l, depth) && AllInward(pad)
    ensures Cover(Leaves(l), px, py) <= One(l.rect, px, py)
    ensures Unpadded(pad) ==> Cover(Leaves(l), px, py) == One(l.rect, px, py)
    decreases t, |t.children| + 2
  {
    if t.children == [] {
      assert Cover([l.rect], px, py) == One(l.rect, px, py) + Cover([], px, py);
    } else {
      var p := pad(t, depth);
      ChildrenCover(round, pad, ratio, t, l, depth, 0, px, py);
      assert Rects(l.children)[0..] == Rects(l.children);
      PadInside(l.rect, p, px, py);
      PadSized(l.rect, p);
    }
  }

  lemma {:induction false} ChildrenCover(round: real -> real, pad: (Tree, nat) -> Padding, ratio: real,
                                         t: Tree, l: Layout, depth: nat, i: nat, px: real, py: real)
    requires Laid(round, pad, ratio, t, l, depth) && AllInward(pad) && i <= |t.children|
    ensures Cover(LeavesFrom(l, i), px, py) <= Cover(Rects(l.children)[i..], px, py)
    ensures Unpadded(pad) ==> Cover(LeavesFrom(l, i), px, py) == Cover(Rects(l.children)[i..], px, py)
    decreases t, |t.children| - i + 1
  {
    if i == |t.children| {
    } else {
      var rects := Rects(l.children);
      LeavesCover(round, pad, ratio, t.children[i], l.children[i], depth + 1, px, py);
      ChildrenCover(round, pad, ratio, t, l, depth, i + 1, px, py);
      CoverConcat(Leaves(l.children[i]), LeavesFrom(l, i + 1), px, py);
      assert rects[i..][0] == l.children[i].rect && rects[i..][1..] == rects[i+1..];
    }
  }

  // ------------------------------------------------------------ all nodes are on the grid

  ghost predicate AllOnGrid(l: Layout)
    decreases l
  {
    OnGrid(l.rect) && forall i | 0 <= i < |l.children| :: AllOnGrid(l.children[i])
  }

  /** Rounding to whole numbers keeps a treemap without padding on the grid. */
  lemma {:induction false} NodesSnap(round: real -> real, pad: (Tree, nat) -> Padding, ratio: real, t: Tree, l: Layout,
                                     depth: nat)
    requires Laid(round, pad, ratio, t, l, depth) && Snaps(round) && Unpadded(pad) && OnGrid(l.rect)
    ensures AllOnGrid(l)
    decreases t
  {
    if t.children == [] {
    } else {
      PadSized(l.rect, pad(t, depth));
      var rects := Rects(l.children);
      CellsSnap(round, ratio, Areas(t, l.rect), l.rect, rects);
      forall i | 0 <= i < |l.children| ensures AllOnGrid(l.children[i]) {
        assert OnGrid(rects[i]);
        NodesSnap(round, pad, ratio, t.children[i], l.children[i], depth + 1);
      }
    }
  }

  // ------------------------------------------------------- areas are in proportion to values

  /** Values that are not negative and sum up: an inner node has the sum of its children. */
  ghost predicate Summed(t: Tree)
    decreases t
  {
    && t.value >= 0.0
    && (t.children != [] ==> t.value == Sum(Values(t.children)))
    && forall i | 0 <= i < |t.children| :: Summed(t.children[i])
  }

  function Values(ts: seq<Tree>): (vs: seq<real>)
    ensures |vs| == |ts|
  {
    seq(|ts|, i requires 0 <= i < |ts| => ts[i].value)
  }

  /** Every node has its value times the factor as its area. */
  ghost predicate InProportion(t: Tree, l: Layout, c: real)
    decreases t
  {
    && Product(c, t.value, Area(l.rect)) && |l.children| == |t.children|
    && forall i | 0 <= i < |t.children| :: InProportion(t.children[i], l.children[i], c)
  }

  lemma Factor(value: real, c: real, area: real)
    requires value > 0.0 && Product(c, value, area)
    ensures PerValue(area, value) == c
  {
  }

  lemma ScaledIs(value: real, c: real)
    requires value >= 0.0 && c >= 0.0
    ensures Product(c, value, Scaled(value, c))
  {
    assert value * c >= 0.0;
  }

  lemma AreaOf(t: Tree, rect: Rect, c: real, i: nat)
    requires Summed(t) && c >= 0.0 && Product(c, t.value, Area(rect)) && i < |t.children|
    ensures Product(c, t.children[i].value, Areas(t, rect)[i])
  {
    if t.value == 0.0 {
      var values := Values(t.children);
      assert forall j | 0 <= j < |values| :: Summed(t.children[j]);
      ZeroSum(values);
      assert values[i] == t.children[i].value;
    } else {
      Factor(t.value, c, Area(rect));
      ScaledIs(t.children[i].value, c);
      assert Areas(t, rect)[i] == Scaled(t.children[i].value, c);
    }
  }

  /** The areas of the children sum up to that of the node. */
  lemma AreasFill(t: Tree, rect: Rect, c: real)
    requires Summed(t) && t.children != [] && c >= 0.0 && Product(c, t.value, Area(rect))
    ensures Measures(rect, Sum(Areas(t, rect)))
  {
    var values, areas := Values(t.children), Areas(t, rect);
    forall i | 0 <= i < |values| ensures Product(c, values[i], areas[i]) {
      AreaOf(t, rect, c, i);
    }
    SumScaled(c, values, areas);
    AreaIs(rect, c, t.value, Sum(areas));
  }

  lemma AreaIs(rect: Rect, c: real, value: real, area: real)
    requires Product(c, value, Area(rect)) && Product(c, value, area)
    ensures Measures(rect, area)
  {
  }

  lemma ExactArea(c: Rect, area: real)
    requires Measures(c, area)
    ensures Area(c) == area
  {
  }

  /** Without rounding and padding, a root that has its area in proportion gives all nodes theirs. */
  lemma {:induction false} AreasInProportion(round: real -> real, pad: (Tree, nat) -> Padding, ratio: real,
                                             t: Tree, l: Layout, depth: nat, c: real)
    requires Laid(round, pad, ratio, t, l, depth) && Identity(round) && Unpadded(pad) && Summed(t)
    requires c >= 0.0 && Product(c, t.value, Area(l.rect))
    ensures InProportion(t, l, c)
    decreases t
  {
    if t.children == [] {
    } else {
      PadSized(l.rect, pad(t, depth));
      AreasFill(t, l.rect, c);
      var rects, areas := Rects(l.children), Areas(t, l.rect);
      forall i | 0 <= i < |t.children| ensures InProportion(t.children[i], l.children[i], c) {
        AreaOf(t, l.rect, c, i);
        assert Measures(rects[i], areas[i]) && rects[i] == l.children[i].rect;
        ExactArea(rects[i], areas[i]);
        AreasInProportion(round, pad, ratio, t.children[i], l.children[i], depth + 1, c);
      }
    }
  }

  // ---------------------------------------------------------------- the treemap of a tree

  lemma LeavesTile(round: real -> real, pad: (Tree, nat) -> Padding, ratio: real, t: Tree, l: Layout)
    requires Laid(round, pad, ratio, t, l, 0)
    ensures AllInward(pad) ==> forall px, py :: Cover(Leaves(l), px, py) <= One(l.rect, px, py)
    ensures Unpadded(pad) ==> forall px, py :: Cover(Leaves(l), px, py) == One(l.rect, px, py)
  {
    if AllInward(pad) {
      forall px, py ensures Cover(Leaves(l), px, py) <= One(l.rect, px, py)
                    ensures Unpadded(pad) ==> Cover(Leaves(l), px, py) == One(l.rect, px, py) {
        LeavesCover(round, pad, ratio, t, l, 0, px, py);
      }
    }
  }

  lemma RootFactor(value: real, rect: Rect)
    requires value > 0.0 && Sized(rect)
    ensures PerValue(Area(rect), value) >= 0.0 && Product(PerValue(Area(rect), value), value, Area(rect))
  {
    assert Area(rect) >= 0.0;
  }

  lemma RootInProportion(round: real -> real, pad: (Tree, nat) -> Padding, ratio: real, t: Tree, l: Layout)
    requires Laid(round, pad, ratio, t, l, 0) && Unpadded(pad) && Identity(round) && Summed(t) && t.value > 0.0
    ensures InProportion(t, l, PerValue(Area(l.rect), t.value))
  {
    RootFactor(t.value, l.rect);
    AreasInProportion(round, pad, ratio, t, l, 0, PerValue(Area(l.rect), t.value));
  }

  lemma {:induction false} SummedIsBalanced(t: Tree)
    requires Summed(t)
    ensures Balanced(t)
    decreases t
  {
    var values := Values(t.children);
    forall i | 0 <= i < |t.children| ensures Balanced(t.children[i]) && values[i] >= 0.0 {
      assert Summed(t.children[i]);
      SummedIsBalanced(t.children[i]);
    }
    if t.value == 0.0 && t.children != [] {
      ZeroSum(values);
      assert forall i | 0 <= i < |t.children| :: values[i] == t.children[i].value;
    }
  }

  /**
   A treemap of the given size.  There is one for all values that are not negative and sum up, and otherwise
   exactly if the layout meets no infinite area.  The leaves are inside and do not overlap, and without
   padding leave no gap.
   */
  method Treemap(round: real -> real, pad: (Tree, nat) -> Padding, ratio: real, t: Tree, width: real, height: real)
    returns (l: Option<Layout>, ghost got: Layout)
    requires KeepsSign(round) && width >= 0.0 && height >= 0.0
    ensures got.rect == Rect(0.0, 0.0, width, height)
    ensures l.Some? ==> l.value == got && Laid(round, pad, ratio, t, got, 0)
    ensures l.None? ==> Reached(round, pad, ratio, t, got, 0)
    ensures l.None? <==> Meets(pad, t, got, 0)
    ensures Infinite(t, Pad(got.rect, pad(t, 0))) ==> l.None?
    ensures (forall i | 0 <= i < |t.children| :: Balanced(t.children[i])) ==>
              (l.None? <==> Infinite(t, Pad(got.rect, pad(t, 0))))
    ensures Summed(t) || Balanced(t) ==> l.Some?
    ensures l.Some? && AllInward(pad) ==> forall px, py :: Cover(Leaves(l.value), px, py) <= One(l.value.rect, px, py)
    ensures l.Some? && Unpadded(pad) ==> forall px, py :: Cover(Leaves(l.value), px, py) == One(l.value.rect, px, py)
    ensures Unpadded(pad) && Identity(round) && Summed(t) && t.value > 0.0 ==>
              InProportion(t, l.value, PerValue(Area(l.value.rect), t.value))
    ensures l.Some? && Unpadded(pad) && Snaps(round) && Integral(width) && Integral(height) ==> AllOnGrid(l.value)
  {
    l, got := SquarifyTree(round, pad, ratio, t, Rect(0.0, 0.0, width, height), 0);
    if Summed(t) {
      SummedIsBalanced(t);
    }
    if l.Some? {
      LeavesTile(round, pad, ratio, t, l.value);
      if Unpadded(pad) && Snaps(round) && Integral(width) && Integral(height) {
        assert Whole(0) == 0.0;
        NodesSnap(round, pad, ratio, t, l.value, 0);
      }
      if Unpadded(pad) && Identity(round) && Summed(t) && t.value > 0.0 {
        RootInProportion(round, pad, ratio, t, l.value);
      }
    }
  }

  /** Two children whose values cancel out. */
  const CANCELLED := Tree(0.0, [Tree(1.0, []), Tree(-1.0, [])])

  lemma CancelledIsInfinite(rect: Rect)
    requires rect.dx > 0.0 && rect.dy > 0.0
    ensures CANCELLED.value == Sum(Values(CANCELLED.children)) && Infinite(CANCELLED, rect)
  {
    assert Values(CANCELLED.children) == [1.0, -1.0];
    assert Sum([1.0, -1.0]) == 1.0 + Sum([-1.0]) && Sum([-1.0]) == -1.0 + Sum([]);
    assert CANCELLED.children[0].value > 0.0;
    assert Area(rect) > 0.0;
  }

  /** A tree whose values sum up, and that has no layout in any size. */
  method CancelledHasNoLayout(round: real -> real, ratio: real, width: real, height: real) returns (l: Option<Layout>)
    requires KeepsSign(round) && width > 0.0 && height > 0.0
    ensures l.None?
  {
    ghost var got;
    CancelledIsInfinite(Rect(0.0, 0.0, width, height));
    l, got := Treemap(round, (_, _) => NO_PADDING, ratio, CANCELLED, width, height);
  }
}
