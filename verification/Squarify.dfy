/**
 The squarify loop of the treemap (www/d3.v2.js): it ends, the cells of the children of a node tile the
 padded rectangle of the node, and so the leaves of a whole tree never overlap.
 */
module Squarify {
  import opened TreemapRows

  // -------------------------------------------------------------- how good a row is

  datatype Score = Infinity | Finite(value: real)

  predicate AtMost(a: Score, b: Score) {
    b == Infinity || (a.Finite? && a.value <= b.value)
  }

  function Max(a: real, b: real): real { if a >= b then a else b }

  // A cell of area `r` in a row of area `s` along a side `u` is `r * u * u / (s * s)` times as long as it
  // is deep. Only the squares of `u` and `s` are needed.

  ghost predicate Positive(u2: real, s2: real, ratio: real) {
    u2 > 0.0 && s2 > 0.0 && ratio > 0.0
  }

  function Long(u2: real, s2: real, ratio: real, r: real): real
    requires s2 > 0.0
  {
    u2 * r * ratio / s2
  }

  function Short(u2: real, s2: real, ratio: real, r: real): real
    requires u2 > 0.0 && ratio != 0.0 && r > 0.0
  {
    NotZero(u2, r, ratio);
    s2 / (u2 * r * ratio)
  }

  /** How far a cell is from the wanted proportion, one way or the other. */
  function Aspect(u2: real, s2: real, ratio: real, r: real): real
    requires Positive(u2, s2, ratio) && r > 0.0
  {
    Max(Long(u2, s2, ratio, r), Short(u2, s2, ratio, r))
  }

  /** A cell of area `r` in a row of area `s` along a side `u`: `l` long and `v` deep. */
  ghost predicate CellIn(u: real, s: real, r: real, l: real, v: real) {
    u > 0.0 && s > 0.0 && r > 0.0 && Product(v, u, s) && Product(v, l, r)
  }

  /** The two quotients say how long the cell is for its depth, and how deep for its length. */
  lemma AspectOfCell(u: real, s: real, ratio: real, r: real, l: real, v: real)
    requires CellIn(u, s, r, l, v) && ratio > 0.0
    ensures l > 0.0 && v > 0.0 && ratio * l > 0.0 && Positive(Square(u), Square(s), ratio)
    ensures Long(Square(u), Square(s), ratio, r) == ratio * l / v
    ensures Short(Square(u), Square(s), ratio, r) == v / (ratio * l)
  {
    SignsOfCell(u, s, r, l, v);
    Product3(u, u, r);
    var x, y := Square(u) * r * ratio, Square(s);
    assert ratio * l > 0.0 && x > 0.0;
    CellScaled(u, s, ratio, r, l, v);
    SameQuotient(x, y, ratio * l, v, v * u * u);
  }

  lemma SignsOfCell(u: real, s: real, r: real, l: real, v: real)
    requires CellIn(u, s, r, l, v)
    ensures l > 0.0 && v > 0.0
  {
  }

  lemma CellScaled(u: real, s: real, ratio: real, r: real, l: real, v: real)
    requires CellIn(u, s, r, l, v)
    ensures Square(u) * r * ratio == (ratio * l) * (v * u * u) && Square(s) == v * (v * u * u)
  {
    assert r == v * l && s == v * u;
  }

  lemma SameQuotient(x: real, y: real, a: real, b: real, c: real)
    requires x > 0.0 && y > 0.0 && a > 0.0 && b > 0.0 && x == a * c && y == b * c
    ensures x / y == a / b && y / x == b / a
  {
    var q := a / b;
    assert q * b == a;
    assert q * y == q * b * c;
    assert q * y == x;
    var q' := b / a;
    assert q' * a == b;
    assert q' * x == q' * a * c;
    assert q' * x == y;
  }

  lemma Product3(a: real, b: real, c: real)
    requires a > 0.0 && b > 0.0 && c > 0.0
    ensures a * b * c > 0.0
  {
    assert a * b > 0.0;
  }

  lemma NotZero(a: real, b: real, c: real)
    requires a > 0.0 && b > 0.0 && c != 0.0
    ensures a * b * c != 0.0
  {
    assert a * b > 0.0;
  }

  lemma Quotients(s: real, a: real, b: real)
    requires s > 0.0 && 0.0 < a <= b
    ensures a / s <= b / s && s / b <= s / a
  {
    var x, y := s / a, s / b;
    assert x * a == s && y * b == s;
    assert x * b >= x * a;
    if y > x {
      Larger(y, x, b);
    }
  }

  lemma Products(u2: real, ratio: real, a: real, b: real)
    requires u2 > 0.0 && ratio > 0.0 && 0.0 < a <= b
    ensures 0.0 < u2 * a * ratio <= u2 * b * ratio
  {
    Product3(u2, a, ratio);
    assert u2 * a <= u2 * b;
  }

  lemma AspectsOrdered(u2: real, s2: real, ratio: real, a: real, b: real)
    requires Positive(u2, s2, ratio) && 0.0 < a <= b
    ensures Long(u2, s2, ratio, a) <= Long(u2, s2, ratio, b) && Short(u2, s2, ratio, b) <= Short(u2, s2, ratio, a)
  {
    Products(u2, ratio, a, b);
    Quotients(s2, u2 * a * ratio, u2 * b * ratio);
  }

  /** The score of a row: the worst of its cells that are not empty. */
  ghost predicate IsWorst(areas: seq<real>, u2: real, s2: real, ratio: real, score: real)
    requires Positive(u2, s2, ratio)
  {
    && (forall i | 0 <= i < |areas| && areas[i] > 0.0 :: Aspect(u2, s2, ratio, areas[i]) <= score)
    && (exists i :: 0 <= i < |areas| && areas[i] > 0.0 && Aspect(u2, s2, ratio, areas[i]) == score)
  }

  /** The score of a row of these areas along a side `u`: infinite where there is no area or no side. */
  ghost predicate Scores(areas: seq<real>, u: real, ratio: real, score: Score) {
    && (score == Infinity <==> Sum(areas) == 0.0 || u == 0.0 || ratio == 0.0)
    && (score.Finite? ==> Positive(Square(u), Square(Sum(areas)), ratio) &&
                          IsWorst(areas, Square(u), Square(Sum(areas)), ratio, score.value))
  }

  lemma OneScore(areas: seq<real>, u: real, ratio: real, score: Score, score': Score)
    requires Scores(areas, u, ratio, score) && Scores(areas, u, ratio, score')
    ensures score == score'
  {
  }

  /** The least and the greatest area that is not zero. */
  ghost predicate Extremes(areas: seq<real>, least: real, most: real) {
    && 0.0 < least <= most && least in areas && most in areas
    && (forall i | 0 <= i < |areas| && areas[i] > 0.0 :: least <= areas[i] <= most)
  }

  /** The two extremes decide. */
  lemma ExtremesDecide(areas: seq<real>, u2: real, s2: real, ratio: real, least: real, most: real)
    requires Positive(u2, s2, ratio) && Extremes(areas, least, most)
    ensures IsWorst(areas, u2, s2, ratio, Max(Long(u2, s2, ratio, most), Short(u2, s2, ratio, least)))
  {
    forall i | 0 <= i < |areas| && areas[i] > 0.0
      ensures Aspect(u2, s2, ratio, areas[i]) <= Max(Long(u2, s2, ratio, most), Short(u2, s2, ratio, least))
    {
      AspectsOrdered(u2, s2, ratio, least, areas[i]);
      AspectsOrdered(u2, s2, ratio, areas[i], most);
    }
    AspectsOrdered(u2, s2, ratio, least, most);
    var i :| 0 <= i < |areas| && areas[i] == least;
    var j :| 0 <= j < |areas| && areas[j] == most;
    assert Aspect(u2, s2, ratio, areas[i]) == Max(Long(u2, s2, ratio, most), Short(u2, s2, ratio, least))
        || Aspect(u2, s2, ratio, areas[j]) == Max(Long(u2, s2, ratio, most), Short(u2, s2, ratio, least));
  }

  /** The areas seen so far, with the greatest, or 0, and the least that is not zero, if there is one. */
  ghost predicate Seen(areas: seq<real>, rmax: real, rmin: Score) {
    if rmin == Infinity then rmax == 0.0 && forall i | 0 <= i < |areas| :: areas[i] == 0.0
    else Extremes(areas, rmin.value, rmax)
  }

  lemma SeeOneMore(areas: seq<real>, rmax: real, rmin: Score, r: real)
    requires Seen(areas, rmax, rmin) && r >= 0.0
    ensures Seen(areas + [r], if r > rmax then r else rmax,
                 if r != 0.0 && (rmin == Infinity || r < rmin.value) then Finite(r) else rmin)
  {
    var areas' := areas + [r];
    assert areas'[|areas|] == r && forall x | x in areas :: x in areas';
  }

  lemma ZerosSum(s: seq<real>)
    requires forall i | 0 <= i < |s| :: s[i] == 0.0
    ensures Sum(s) == 0.0
  {
  }

  function Times(a: real, b: real): (r: real)
    ensures (a > 0.0 && b > 0.0) || (a < 0.0 && b < 0.0) ==> r > 0.0
  {
    a * b
  }

  function Square(x: real): real { Times(x, x) }

  lemma SomeSeen(areas: seq<real>, rmax: real, rmin: Score)
    requires Seen(areas, rmax, rmin) && Sum(areas) != 0.0
    ensures rmin.Finite? && Extremes(areas, rmin.value, rmax)
  {
    if rmin == Infinity {
      ZerosSum(areas);
    }
  }

  method Scan(areas: seq<real>) returns (rmax: real, rmin: Score)
    requires NonNegative(areas)
    ensures Seen(areas, rmax, rmin)
  {
    rmax, rmin := 0.0, Infinity;
    var i := 0;
    while i < |areas|
      invariant 0 <= i <= |areas| && Seen(areas[..i], rmax, rmin)
    {
      var r := areas[i];
      SeeOneMore(areas[..i], rmax, rmin, r);
      assert areas[..i+1] == areas[..i] + [r];
      if r != 0.0 {
        if rmin == Infinity || r < rmin.value {
          rmin := Finite(r);
        }
        if r > rmax {
          rmax := r;
        }
      }
      i := i + 1;
    }
    assert areas[..|areas|] == areas;
  }

  /**
   The score of a row of children with these areas, which sum up to `rowArea`, along a side `u`.  A quotient
   by zero is infinite; with a side of zero and a negative ratio it is minus infinity, and the score is zero.
   */
  method Worst(areas: seq<real>, rowArea: real, u: real, ratio: real) returns (score: Score)
    requires NonNegative(areas) && rowArea == Sum(areas)
    ensures score == Infinity <==> rowArea == 0.0 || ratio == 0.0 || (u == 0.0 && ratio > 0.0)
    ensures ratio >= 0.0 ==> Scores(areas, u, ratio, score)
  {
    var rmax, rmin := Scan(areas);
    SumNonNegative(areas);
    if rowArea == 0.0 || ratio == 0.0 {
      return Infinity;
    }
    if u == 0.0 {
      return if ratio > 0.0 then Infinity else Finite(0.0);
    }
    SomeSeen(areas, rmax, rmin);
    var s2, u2 := Square(rowArea), Square(u);
    score := Finite(Max(Long(u2, s2, ratio, rmax), Short(u2, s2, ratio, rmin.value)));
    if ratio > 0.0 {
      ExtremesDecide(areas, u2, s2, ratio, rmin.value, rmax);
    }
  }

  // ------------------------------------------------------------------ where rows are cut

  /** A row, as the numbers of its children, from `r` up to `k`, and the rectangle that is left for it. */
  datatype Strip = Strip(r: nat, k: nat, rect: Rect)

  function Side(rect: Rect): real { Min(rect.dx, rect.dy) }

  /** The row along the shorter side; the last one, with the first child, takes all that is left. */
  function RowFor(round: real -> real, areas: seq<real>, s: Strip): Row
    requires s.r <= s.k <= |areas|
  {
    RowOf(round, areas[s.r..s.k], Side(s.rect), s.rect, s.r == 0)
  }

  function Left(round: real -> real, areas: seq<real>, s: Strip): Rect
    requires s.r <= s.k <= |areas|
  {
    var row := RowFor(round, areas, s);
    Rest(row.wide, s.rect, row.v)
  }

  /** The score of the first row is at most that of the second. */
  ghost predicate NoWorse(a: seq<real>, b: seq<real>, u: real, ratio: real) {
    exists x, y :: Scores(a, u, ratio, x) && Scores(b, u, ratio, y) && AtMost(x, y)
  }

  ghost predicate Worse(a: seq<real>, b: seq<real>, u: real, ratio: real) {
    exists x, y :: Scores(a, u, ratio, x) && Scores(b, u, ratio, y) && !AtMost(x, y)
  }

  lemma NotBoth(a: seq<real>, b: seq<real>, u: real, ratio: real)
    ensures !NoWorse(a, b, u, ratio) || !Worse(a, b, u, ratio)
  {
    forall x, y, x', y' | Scores(a, u, ratio, x) && Scores(b, u, ratio, y) &&
                          Scores(a, u, ratio, x') && Scores(b, u, ratio, y')
      ensures x == x' && y == y'
    {
      OneScore(a, u, ratio, x, x');
      OneScore(b, u, ratio, y, y');
    }
  }

  /** No child from `r` on made the row worse when it was taken. */
  ghost predicate Improves(areas: seq<real>, u: real, ratio: real, r: nat, k: nat)
    requires k <= |areas|
  {
    forall j: nat | r <= j && j + 1 < k :: NoWorse(areas[j..k], areas[j+1..k], u, ratio)
  }

  /** The row is cut where the next child would make it worse. */
  ghost predicate WellCut(areas: seq<real>, ratio: real, s: Strip)
    requires s.r <= s.k <= |areas|
  {
    && Improves(areas, Side(s.rect), ratio, s.r, s.k)
    && (s.r > 0 ==> Worse(areas[s.r-1..s.k], areas[s.r..s.k], Side(s.rect), ratio))
  }

  /** A row that is still growing, with its score. */
  ghost predicate Growing(areas: seq<real>, u: real, ratio: real, r: nat, k: nat, best: Score) {
    && r <= k <= |areas| && Improves(areas, u, ratio, r, k)
    && (if r == k then best == Infinity else Scores(areas[r..k], u, ratio, best))
  }

  /** For a ratio below zero nothing is said of the scores. */
  ghost predicate Grows(areas: seq<real>, u: real, ratio: real, r: nat, k: nat, best: Score) {
    ratio >= 0.0 ==> Growing(areas, u, ratio, r, k, best)
  }

  lemma Grow(areas: seq<real>, u: real, ratio: real, r: nat, k: nat, best: Score, score: Score)
    requires Grows(areas, u, ratio, r, k, best) && 0 < r <= k <= |areas| && AtMost(score, best)
    requires ratio >= 0.0 ==> Scores(areas[r-1..k], u, ratio, score)
    ensures Grows(areas, u, ratio, r - 1, k, score)
  {
    if ratio >= 0.0 {
      forall j: nat | r - 1 <= j && j + 1 < k ensures NoWorse(areas[j..k], areas[j+1..k], u, ratio) {
        if j == r - 1 {
          assert Scores(areas[j..k], u, ratio, score) && Scores(areas[j+1..k], u, ratio, best);
        }
      }
    }
  }

  lemma Cut(areas: seq<real>, u: real, ratio: real, r: nat, k: nat, best: Score, score: Score, rect: Rect)
    requires Grows(areas, u, ratio, r, k, best) && 0 < r <= k <= |areas| && !AtMost(score, best) && u == Side(rect)
    requires ratio >= 0.0 ==> Scores(areas[r-1..k], u, ratio, score)
    ensures ratio >= 0.0 ==> r < k && WellCut(areas, ratio, Strip(r, k, rect))
  {
  }

  /** The order of the children in a row does not matter for its score. */
  lemma SameScore(areas: seq<real>, row: seq<nat>, r: nat, k: nat, u: real, ratio: real, score: Score)
    requires RowIs(row, r, k) && k <= |areas| && Scores(RowAreas(areas, row), u, ratio, score)
    ensures Scores(areas[r..k], u, ratio, score)
  {
    RowAreasSum(areas, row, r, k);
    RowAreasSame(areas, row, r, k);
    if score.Finite? {
      SameWorst(RowAreas(areas, row), areas[r..k], Square(u), Square(Sum(areas[r..k])), ratio, score.value);
    }
  }

  lemma SameWorst(a: seq<real>, b: seq<real>, u2: real, s2: real, ratio: real, score: real)
    requires Positive(u2, s2, ratio) && IsWorst(a, u2, s2, ratio, score)
    requires multiset(a) == multiset(b)
    ensures IsWorst(b, u2, s2, ratio, score)
  {
    var i :| 0 <= i < |a| && a[i] > 0.0 && Aspect(u2, s2, ratio, a[i]) == score;
    assert a[i] in multiset(a);
    var j :| 0 <= j < |b| && b[j] == a[i];
    forall j | 0 <= j < |b| && b[j] > 0.0 ensures Aspect(u2, s2, ratio, b[j]) <= score {
      assert b[j] in multiset(b);
      var i :| 0 <= i < |a| && a[i] == b[j];
    }
  }

  // ------------------------------------------------------------ the rows of a rectangle

  /** The rows placed so far hold the children from `k` on, the last ones first, and leave `rect` of the whole. */
  ghost predicate Strips(round: real -> real, ratio: real, areas: seq<real>, whole: Rect, rows: seq<Strip>, k: nat,
                         done: seq<Rect>, rect: Rect)
    decreases |rows|
  {
    if rows == [] then k == |areas| && done == [] && rect == whole
    else
      var s := rows[|rows|-1];
      && k == s.r < s.k <= |areas| && s.k - s.r <= |done| && rect == Left(round, areas, s)
      && IsRow(RowFor(round, areas, s), done[..s.k-s.r]) && (ratio >= 0.0 ==> WellCut(areas, ratio, s))
      && Strips(round, ratio, areas, whole, rows[..|rows|-1], s.k, done[s.k-s.r..], s.rect)
  }

  /** What is placed: the rows, the cells of the children from `k` on, and what is left of the rectangle. */
  datatype Progress = Progress(rows: seq<Strip>, k: nat, done: seq<Rect>, rect: Rect)

  ghost predicate Placed(round: real -> real, ratio: real, areas: seq<real>, whole: Rect, p: Progress) {
    Strips(round, ratio, areas, whole, p.rows, p.k, p.done, p.rect)
  }

  /**
   The cells come in rows from the last child to the first, each along the shorter side of what the rows
   before it leave, and each cut just where the next child would make its worst cell worse.
   */
  ghost predicate Squarified(round: real -> real, ratio: real, areas: seq<real>, whole: Rect, cells: seq<Rect>) {
    exists p :: Placed(round, ratio, areas, whole, p) && p.k == 0 && p.done == cells
  }

  lemma NextStrip(round: real -> real, ratio: real, areas: seq<real>, whole: Rect, rows: seq<Strip>, done: seq<Rect>,
                  s: Strip, cells: seq<Rect>)
    requires Strips(round, ratio, areas, whole, rows, s.k, done, s.rect) && s.r < s.k <= |areas|
    requires IsRow(RowFor(round, areas, s), cells) && (ratio >= 0.0 ==> WellCut(areas, ratio, s))
    ensures Strips(round, ratio, areas, whole, rows + [s], s.r, cells + done, Left(round, areas, s))
  {
    var rows', done' := rows + [s], cells + done;
    assert rows'[..|rows|] == rows && done'[..|cells|] == cells && done'[|cells|..] == done;
  }

  lemma {:induction false} StripsCount(round: real -> real, ratio: real, areas: seq<real>, whole: Rect,
                                       rows: seq<Strip>, k: nat, done: seq<Rect>, rect: Rect)
    requires Strips(round, ratio, areas, whole, rows, k, done, rect)
    ensures k + |done| == |areas|
    decreases |rows|
  {
    if rows == [] {
    } else {
      var s := rows[|rows|-1];
      StripsCount(round, ratio, areas, whole, rows[..|rows|-1], s.k, done[s.k-s.r..], s.rect);
    }
  }

  // ------------------------------------------------------------- there is only one way

  lemma {:induction false} SameRow(row: Row, cells: seq<Rect>, cells': seq<Rect>, j: nat)
    requires IsRow(row, cells) && IsRow(row, cells') && j < |cells|
    ensures cells[j] == cells'[j]
    decreases |cells| - j
  {
    assert Follows(row, cells, j) && Follows(row, cells', j);
    if j == |cells| - 1 {
    } else {
      SameRow(row, cells, cells', j + 1);
    }
    if j > 0 {
      assert Gets(row, cells, j) && Gets(row, cells', j);
    }
  }

  lemma SameCells(row: Row, cells: seq<Rect>, cells': seq<Rect>)
    requires IsRow(row, cells) && IsRow(row, cells')
    ensures cells == cells'
  {
    forall j | 0 <= j < |cells| ensures cells[j] == cells'[j] {
      SameRow(row, cells, cells', j);
    }
  }

  /** A row that goes on where another one is cut is not well cut. */
  lemma GoesTooFar(areas: seq<real>, ratio: real, s: Strip, s': Strip)
    requires s.k == s'.k && s.rect == s'.rect && s.r < s'.r < s.k <= |areas| && WellCut(areas, ratio, s')
    ensures !WellCut(areas, ratio, s)
  {
    var j := s'.r - 1;
    assert Worse(areas[j..s.k], areas[j+1..s.k], Side(s.rect), ratio);
    NotBoth(areas[j..s.k], areas[j+1..s.k], Side(s.rect), ratio);
  }

  lemma SameCut(areas: seq<real>, ratio: real, s: Strip, s': Strip)
    requires s.k == s'.k && s.rect == s'.rect && s.r < s.k <= |areas| && s'.r < s.k
    requires WellCut(areas, ratio, s) && WellCut(areas, ratio, s')
    ensures s == s'
  {
    if s.r < s'.r {
      GoesTooFar(areas, ratio, s, s');
    } else if s'.r < s.r {
      GoesTooFar(areas, ratio, s', s);
    }
  }

  /** What was placed before the last row. */
  function Front(p: Progress): Progress
    requires p.rows != []
  {
    var s := p.rows[|p.rows|-1];
    Progress(p.rows[..|p.rows|-1], s.k, if s.k <= s.r + |p.done| && s.r <= s.k then p.done[s.k-s.r..] else [], s.rect)
  }

  /** The last row, its cells, and what it leaves. */
  ghost predicate Lays(round: real -> real, areas: seq<real>, p: Progress, s: Strip) {
    && p.rows != [] && s == p.rows[|p.rows|-1] && p.k == s.r < s.k <= |areas| && s.k - s.r <= |p.done|
    && p.rect == Left(round, areas, s) && IsRow(RowFor(round, areas, s), p.done[..s.k-s.r])
  }

  lemma LastLays(round: real -> real, ratio: real, areas: seq<real>, whole: Rect, p: Progress)
    requires Placed(round, ratio, areas, whole, p) && p.rows != []
    ensures Lays(round, areas, p, p.rows[|p.rows|-1]) && Placed(round, ratio, areas, whole, Front(p))
    ensures ratio >= 0.0 ==> WellCut(areas, ratio, p.rows[|p.rows|-1])
  {
  }

  lemma SameLays(round: real -> real, areas: seq<real>, p: Progress, p': Progress, s: Strip)
    requires Lays(round, areas, p, s) && Lays(round, areas, p', s) && Front(p) == Front(p')
    ensures p == p'
  {
    var n := s.k - s.r;
    SameCells(RowFor(round, areas, s), p.done[..n], p'.done[..n]);
    assert p.done == p.done[..n] + p.done[n..] && p'.done == p'.done[..n] + p'.done[n..];
    assert p.rows == p.rows[..|p.rows|-1] + [s] && p'.rows == p'.rows[..|p'.rows|-1] + [s];
  }

  lemma LastSame(round: real -> real, ratio: real, areas: seq<real>, p: Progress, p': Progress, s: Strip, s': Strip)
    requires Lays(round, areas, p, s) && Lays(round, areas, p', s') && Front(p) == Front(p')
    requires WellCut(areas, ratio, s) && WellCut(areas, ratio, s')
    ensures p == p'
  {
    SameCut(areas, ratio, s, s');
    SameLays(round, areas, p, p', s);
  }

  // The reasoning about whole lists of rows takes what can be placed as a predicate `placed`, of which it
  // needs these facts only.

  ghost predicate StepsBack(placed: Progress -> bool, p: Progress) {
    placed(p) && p.rows != [] ==> placed(Front(p)) && p.k < Front(p).k
  }

  ghost predicate Follow(placed: Progress -> bool, p: Progress, p': Progress) {
    placed(p) && placed(p') ==>
      && (p.rows == [] && p'.rows == [] ==> p == p')
      && (p.rows != [] && p'.rows != [] && Front(p) == Front(p') ==> p == p')
  }

  ghost predicate Determined(placed: Progress -> bool) {
    (forall p :: StepsBack(placed, p)) && (forall p, p' :: Follow(placed, p, p'))
  }

  lemma PlacedIsDetermined(round: real -> real, ratio: real, areas: seq<real>, whole: Rect)
    requires ratio >= 0.0
    ensures Determined(p => Placed(round, ratio, areas, whole, p))
  {
    var placed := p => Placed(round, ratio, areas, whole, p);
    forall p ensures StepsBack(placed, p) {
      if placed(p) && p.rows != [] {
        LastLays(round, ratio, areas, whole, p);
      }
    }
    forall p, p' ensures Follow(placed, p, p') {
      if placed(p) && placed(p') && p.rows != [] && p'.rows != [] && Front(p) == Front(p') {
        LastLays(round, ratio, areas, whole, p);
        LastLays(round, ratio, areas, whole, p');
        LastSame(round, ratio, areas, p, p', p.rows[|p.rows|-1], p'.rows[|p'.rows|-1]);
      }
    }
  }

  /** One of two lists of rows starts with the other. */
  lemma {:induction false} SameStrips(placed: Progress -> bool, p: Progress, p': Progress)
    requires Determined(placed) && placed(p) && placed(p') && |p.rows| <= |p'.rows|
    ensures if |p.rows| == |p'.rows| then p == p' else p'.k < p.k
    decreases |p'.rows|
  {
    assert StepsBack(placed, p) && StepsBack(placed, p') && Follow(placed, p, p');
    if p'.rows == [] {
    } else if |p.rows| < |p'.rows| {
      SameStrips(placed, p, Front(p'));
    } else {
      SameStrips(placed, Front(p), Front(p'));
    }
  }

  /** The cells of squarified rows are determined. */
  lemma SquarifiedUnique(round: real -> real, ratio: real, areas: seq<real>, whole: Rect, cells: seq<Rect>,
                         cells': seq<Rect>)
    requires Squarified(round, ratio, areas, whole, cells) && Squarified(round, ratio, areas, whole, cells')
    requires ratio >= 0.0
    ensures cells == cells'
  {
    var placed := p => Placed(round, ratio, areas, whole, p);
    PlacedIsDetermined(round, ratio, areas, whole);
    var p: Progress :| Placed(round, ratio, areas, whole, p) && p.k == 0 && p.done == cells;
    var p': Progress :| Placed(round, ratio, areas, whole, p') && p'.k == 0 && p'.done == cells';
    if |p.rows| <= |p'.rows| {
      SameStrips(placed, p, p');
    } else {
      SameStrips(placed, p', p);
    }
  }

  // ------------------------------------------------------------------------ the grid

  function Whole(n: int): real { n as real }

  ghost predicate Integral(r: real) {
    exists n :: Whole(n) == r
  }

  ghost predicate OnGrid(r: Rect) {
    Integral(r.x) && Integral(r.y) && Integral(r.dx) && Integral(r.dy)
  }

  ghost predicate Snaps(round: real -> real) {
    forall r :: Integral(round(r))
  }

  lemma GridSums(a: real, b: real)
    requires Integral(a) && Integral(b)
    ensures Integral(a + b) && Integral(a - b)
  {
    var m, n :| Whole(m) == a && Whole(n) == b;
    assert Whole(m + n) == a + b && Whole(m - n) == a - b;
  }

  lemma RowOnGrid(round: real -> real, areas: seq<real>, u: real, rect: Rect, flush: bool)
    requires Snaps(round) && OnGrid(rect)
    ensures var row := RowOf(round, areas, u, rect, flush);
            && Integral(row.v) && Integral(row.First()) && Integral(row.End()) && OnGrid(Rest(row.wide, rect, row.v))
            && forall j | 0 <= j < |areas| :: Integral(row.wishes[j])
  {
    var row := RowOf(round, areas, u, rect, flush);
    assert Whole(0) == 0.0;
    GridSums(rect.x, rect.dx);
    GridSums(rect.y, rect.dy);
    GridSums(Start(!row.wide, rect), row.v);
    GridSums(Depth(row.wide, rect), row.v);
  }

  lemma {:induction false} CellsOnGrid(row: Row, cells: seq<Rect>, j: nat)
    requires IsRow(row, cells) && j < |cells| && OnGrid(row.rect) && Integral(row.v)
    requires Integral(row.First()) && Integral(row.End()) && forall i | 0 <= i < |cells| :: Integral(row.wishes[i])
    ensures OnGrid(cells[j]) && Integral(To(row.wide, cells[j]))
    decreases |cells| - j
  {
    assert Follows(row, cells, j);
    if j == |cells| - 1 {
    } else {
      CellsOnGrid(row, cells, j + 1);
    }
    var a := Start(row.wide, cells[j]);
    GridSums(row.End(), a);
    if j > 0 {
      assert Gets(row, cells, j);
    }
    GridSums(a, Length(row.wide, cells[j]));
  }

  lemma StripOnGrid(round: real -> real, areas: seq<real>, s: Strip, cells: seq<Rect>)
    requires Snaps(round) && OnGrid(s.rect) && s.r <= s.k <= |areas| && IsRow(RowFor(round, areas, s), cells)
    ensures OnGrid(Left(round, areas, s)) && forall j | 0 <= j < |cells| :: OnGrid(cells[j])
  {
    RowOnGrid(round, areas[s.r..s.k], Side(s.rect), s.rect, s.r == 0);
    forall j | 0 <= j < |cells| ensures OnGrid(cells[j]) {
      CellsOnGrid(RowFor(round, areas, s), cells, j);
    }
  }

  lemma {:induction false} StripsOnGrid(round: real -> real, ratio: real, areas: seq<real>, whole: Rect,
                                        rows: seq<Strip>, k: nat, done: seq<Rect>, rect: Rect)
    requires Strips(round, ratio, areas, whole, rows, k, done, rect) && Snaps(round) && OnGrid(whole)
    ensures OnGrid(rect) && forall j | 0 <= j < |done| :: OnGrid(done[j])
    decreases |rows|
  {
    if rows == [] {
    } else {
      var s := rows[|rows|-1];
      var n := s.k - s.r;
      StripsOnGrid(round, ratio, areas, whole, rows[..|rows|-1], s.k, done[n..], s.rect);
      StripOnGrid(round, areas, s, done[..n]);
      forall j | 0 <= j < |done| ensures OnGrid(done[j]) {
        assert done[j] == if j < n then done[..n][j] else done[n..][j-n];
      }
    }
  }

  /** Rounding to whole numbers keeps all cells on the grid. */
  lemma CellsSnap(round: real -> real, ratio: real, areas: seq<real>, whole: Rect, cells: seq<Rect>)
    requires Squarified(round, ratio, areas, whole, cells) && Snaps(round) && OnGrid(whole)
    ensures forall j | 0 <= j < |cells| :: OnGrid(cells[j])
  {
    var p: Progress :| Placed(round, ratio, areas, whole, p) && p.k == 0 && p.done == cells;
    StripsOnGrid(round, ratio, areas, whole, p.rows, 0, cells, p.rect);
  }

  // ------------------------------------------------------- squarified rows are a tiling

  /** The cells and what is left of the rectangle make up the whole. */
  ghost predicate Remains(cells: seq<Rect>, rest: Rect, whole: Rect) {
    && Sized(rest) && AllSized(cells)
    && forall px, py :: Cover(cells, px, py) + One(rest, px, py) == One(whole, px, py)
  }

  lemma PlaceRow(row: Row, cells: seq<Rect>, base: seq<Rect>, whole: Rect)
    requires row.Proper() && IsRow(row, cells) && cells != [] && Remains(base, row.rect, whole)
    ensures Remains(cells + base, Rest(row.wide, row.rect, row.v), whole)
  {
    var strip, rest := row.Cell(row.First(), Length(row.wide, row.rect)), Rest(row.wide, row.rect, row.v);
    RowSized(row, cells);
    RowFills(row, cells, base);
    RowSplits(row.wide, row.rect, row.v);
    forall px, py ensures Cover(cells + base, px, py) + One(rest, px, py) == One(whole, px, py) {
      assert Cover(cells + base, px, py) == Cover(base, px, py) + One(strip, px, py);
      assert One(row.rect, px, py) == One(rest, px, py) + One(strip, px, py);
    }
  }

  lemma NothingLeft(cells: seq<Rect>, rest: Rect, whole: Rect)
    requires Remains(cells, rest, whole) && (rest.dx == 0.0 || rest.dy == 0.0)
    ensures Tiles(cells, whole)
  {
    forall px, py ensures Cover(cells, px, py) == One(whole, px, py) {
      assert !Has(rest, px, py);
    }
  }

  /** What is left of the rectangle is what the children up to `k` are due, and the others have theirs. */
  ghost predicate Due(areas: seq<real>, k: nat, cells: seq<Rect>, rest: Rect)
    requires k <= |areas|
  {
    Measures(rest, Sum(areas[..k])) && Exact(cells, areas[k..])
  }

  lemma RestArea(wide: bool, rect: Rect, v: real, whole: real, part: real)
    requires Measures(rect, whole) && Product(v, Length(wide, rect), part)
    ensures Measures(Rest(wide, rect, v), whole - part)
  {
  }

  lemma ExactMore(cells: seq<Rect>, base: seq<Rect>, areas: seq<real>, r: nat, k: nat)
    requires r <= k <= |areas| && Exact(cells, areas[r..k]) && Exact(base, areas[k..])
    ensures Exact(cells + base, areas[r..])
  {
    assert areas[r..] == areas[r..k] + areas[k..];
  }

  lemma PlaceExact(round: real -> real, areas: seq<real>, r: nat, k: nat, cells: seq<Rect>, base: seq<Rect>, rect: Rect,
                   flush: bool)
    requires KeepsSign(round) && Identity(round) && NonNegative(areas) && Sized(rect)
    requires r <= k <= |areas| && (flush ==> r == 0) && Due(areas, k, base, rect)
    requires IsRow(RowOf(round, areas[r..k], Min(rect.dx, rect.dy), rect, flush), cells)
    ensures var row := RowOf(round, areas[r..k], Min(rect.dx, rect.dy), rect, flush);
            Due(areas, r, cells + base, Rest(row.wide, rect, row.v))
  {
    var mine, whole, u := areas[r..k], Sum(areas[..k]), Min(rect.dx, rect.dy);
    SumSplit(areas[..k], r);
    assert areas[..k][..r] == areas[..r] && areas[..k][r..] == mine;
    SumNonNegative(areas[..r]);
    assert flush ==> areas[..r] == [];
    RowOfTight(round, mine, rect, flush, whole);
    Sides(rect, whole);
    var row := RowOf(round, mine, u, rect, flush);
    RowExact(row, mine, cells);
    ExactMore(cells, base, areas, r, k);
    RestArea(row.wide, rect, row.v, whole, Sum(mine));
  }

  /** The state between two children: which are in the row, and what is left of the rectangle. */
  ghost predicate Between(round: real -> real, areas: seq<real>, whole: Rect, k: nat, cells: seq<Rect>, rect: Rect) {
    && k <= |areas| && Remains(cells, rect, whole)
    && (Identity(round) && Measures(whole, Sum(areas)) ==> Due(areas, k, cells, rect))
  }

  lemma RowPlaced(round: real -> real, areas: seq<real>, whole: Rect, r: nat, k: nat, cells: seq<Rect>, base: seq<Rect>,
                  rect: Rect, flush: bool)
    requires KeepsSign(round) && NonNegative(areas) && Between(round, areas, whole, k, base, rect) && r < k
    requires flush ==> r == 0
    requires IsRow(RowOf(round, areas[r..k], Min(rect.dx, rect.dy), rect, flush), cells)
    ensures var row := RowOf(round, areas[r..k], Min(rect.dx, rect.dy), rect, flush);
            Between(round, areas, whole, r, cells + base, Rest(row.wide, rect, row.v))
  {
    var u := Min(rect.dx, rect.dy);
    RowOfProper(round, areas[r..k], u, rect, flush);
    PlaceRow(RowOf(round, areas[r..k], u, rect, flush), cells, base, whole);
    if Identity(round) && Measures(whole, Sum(areas)) {
      PlaceExact(round, areas, r, k, cells, base, rect, flush);
    }
  }

  lemma AllPlaced(round: real -> real, areas: seq<real>, whole: Rect, cells: seq<Rect>, rest: Rect)
    requires Between(round, areas, whole, 0, cells, rest) && (rest.dx == 0.0 || rest.dy == 0.0)
    ensures Tiles(cells, whole) && (Identity(round) && Measures(whole, Sum(areas)) ==> Exact(cells, areas))
  {
    NothingLeft(cells, rest, whole);
    assert areas[0..] == areas;
  }

  lemma NonePlaced(round: real -> real, areas: seq<real>, whole: Rect)
    requires Sized(whole)
    ensures Between(round, areas, whole, |areas|, [], whole)
  {
    assert areas[..|areas|] == areas;
  }

  lemma {:induction false} StripsPlaced(round: real -> real, ratio: real, areas: seq<real>, whole: Rect,
                                        rows: seq<Strip>, k: nat, done: seq<Rect>, rect: Rect)
    requires KeepsSign(round) && NonNegative(areas) && Sized(whole)
    requires Strips(round, ratio, areas, whole, rows, k, done, rect)
    ensures Between(round, areas, whole, k, done, rect)
    decreases |rows|
  {
    if rows == [] {
      NonePlaced(round, areas, whole);
    } else {
      var s := rows[|rows|-1];
      var n := s.k - s.r;
      StripsPlaced(round, ratio, areas, whole, rows[..|rows|-1], s.k, done[n..], s.rect);
      RowPlaced(round, areas, whole, s.r, s.k, done[..n], done[n..], s.rect, s.r == 0);
      assert done == done[..n] + done[n..];
    }
  }

  /** Squarified rows tile the rectangle; without rounding and with just enough area, each cell has its area. */
  lemma SquarifiedTiles(round: real -> real, ratio: real, areas: seq<real>, whole: Rect, cells: seq<Rect>)
    requires KeepsSign(round) && NonNegative(areas) && Sized(whole) && areas != []
    requires Squarified(round, ratio, areas, whole, cells)
    ensures |cells| == |areas| && Tiles(cells, whole)
    ensures Identity(round) && Measures(whole, Sum(areas)) ==> Exact(cells, areas)
  {
    var p: Progress :| Placed(round, ratio, areas, whole, p) && p.k == 0 && p.done == cells;
    StripsCount(round, ratio, areas, whole, p.rows, 0, cells, p.rect);
    StripsPlaced(round, ratio, areas, whole, p.rows, 0, cells, p.rect);
    AllPlaced(round, areas, whole, cells, p.rect);
  }

  // ---------------------------------------------------------------- the squarify loop

  ghost predicate UpTo(remaining: seq<nat>) {
    forall i | 0 <= i < |remaining| :: remaining[i] == i
  }

  function RowAreas(areas: seq<real>, row: seq<nat>): (s: seq<real>)
    requires forall i | 0 <= i < |row| :: row[i] < |areas|
  {
    seq(|row|, i requires 0 <= i < |row| => areas[row[i]])
  }

  lemma RowAreasTail(areas: seq<real>, row: seq<nat>, r: nat, k: nat)
    requires RowIs(row, r, k) && r < k <= |areas|
    ensures RowIs(row[1..], r, k - 1) && areas[r..k] == areas[r..k-1] + [areas[k-1]]
    ensures RowAreas(areas, row) == [areas[k-1]] + RowAreas(areas, row[1..])
  {
  }

  lemma {:induction false} RowAreasSum(areas: seq<real>, row: seq<nat>, r: nat, k: nat)
    requires RowIs(row, r, k) && k <= |areas|
    ensures Sum(RowAreas(areas, row)) == Sum(areas[r..k])
    decreases |row|
  {
    if row == [] {
    } else {
      RowAreasTail(areas, row, r, k);
      RowAreasSum(areas, row[1..], r, k - 1);
      SumFront(areas[r..k], k - 1 - r);
      assert areas[r..k][..k-1-r] == areas[r..k-1] && areas[r..k][..k-r] == areas[r..k];
      assert RowAreas(areas, row)[1..] == RowAreas(areas, row[1..]);
    }
  }

  lemma {:induction false} RowAreasSame(areas: seq<real>, row: seq<nat>, r: nat, k: nat)
    requires RowIs(row, r, k) && k <= |areas|
    ensures multiset(RowAreas(areas, row)) == multiset(areas[r..k])
    decreases |row|
  {
    if row == [] {
    } else {
      RowAreasTail(areas, row, r, k);
      RowAreasSame(areas, row[1..], r, k - 1);
    }
  }

  /** The row that is not placed yet: the children from `r` on, their area and their score. */
  ghost predicate Open(areas: seq<real>, ratio: real, p: Progress, row: seq<nat>, r: nat, rowArea: real, best: Score) {
    && RowIs(row, r, p.k) && p.k <= |areas| && rowArea == Sum(areas[r..p.k]) && (row == [] ==> best == Infinity)
    && Grows(areas, Side(p.rect), ratio, r, p.k, best)
  }

  /** A child comes to the row. */
  lemma PushChild(areas: seq<real>, ratio: real, p: Progress, row: seq<nat>, r: nat, rowArea: real, best: Score)
    requires Open(areas, ratio, p, row, r, rowArea, best) && 0 < r
    ensures RowIs(row + [r-1], r - 1, p.k) && Sum(areas[r-1..p.k]) == rowArea + areas[r-1]
  {
    assert areas[r-1..p.k][1..] == areas[r..p.k];
  }

  /** It stays. */
  lemma TakeChild(areas: seq<real>, ratio: real, p: Progress, row: seq<nat>, r: nat, rowArea: real, best: Score,
                  score: Score)
    requires Open(areas, ratio, p, row, r, rowArea, best) && 0 < r && AtMost(score, best)
    requires ratio >= 0.0 ==> Scores(areas[r-1..p.k], Side(p.rect), ratio, score)
    ensures Open(areas, ratio, p, row + [r-1], r - 1, rowArea + areas[r-1], score)
  {
    PushChild(areas, ratio, p, row, r, rowArea, best);
    Grow(areas, Side(p.rect), ratio, r, p.k, best, score);
  }

  /** It makes the row worse, and the row ends before it. */
  lemma EndRow(areas: seq<real>, ratio: real, p: Progress, row: seq<nat>, r: nat, rowArea: real, best: Score,
               score: Score)
    requires Open(areas, ratio, p, row, r, rowArea, best) && 0 < r && !AtMost(score, best)
    requires ratio >= 0.0 ==> Scores(areas[r-1..p.k], Side(p.rect), ratio, score)
    ensures row != [] && Ended(areas, ratio, p, row, r, rowArea)
  {
    Cut(areas, Side(p.rect), ratio, r, p.k, best, score, p.rect);
  }

  ghost predicate Ended(areas: seq<real>, ratio: real, p: Progress, row: seq<nat>, r: nat, rowArea: real) {
    && RowIs(row, r, p.k) && r < p.k <= |areas| && rowArea == Sum(areas[r..p.k])
    && (ratio >= 0.0 ==> WellCut(areas, ratio, Strip(r, p.k, p.rect)))
  }

  lemma FreshRow(areas: seq<real>, ratio: real, p: Progress)
    requires p.k <= |areas|
    ensures Open(areas, ratio, p, [], p.k, 0.0, Infinity)
  {
    assert areas[p.k..p.k] == [];
  }

  lemma SplitCells(cells: array<Rect>, r: nat, k: nat)
    requires r <= k <= cells.Length
    ensures cells[r..] == cells[r..k] + cells[k..]
  {
  }

  /** One row is placed and its children are done with. */
  method Flush(round: real -> real, row: seq<nat>, rowArea: real, areas: seq<real>, u: real, rect: Rect, flush: bool,
               cells: array<Rect>, ghost ratio: real, ghost whole: Rect, ghost p: Progress, ghost r: nat)
    returns (rest: Rect, ghost next: Progress)
    requires Ended(areas, ratio, p, row, r, rowArea) && cells.Length == |areas|
    requires Placed(round, ratio, areas, whole, p) && cells[p.k..] == p.done
    requires rect == p.rect && u == Side(rect) && (flush <==> r == 0)
    modifies cells
    ensures Placed(round, ratio, areas, whole, next) && next.k == r && next.done == cells[r..] && next.rect == rest
  {
    rest := Position(round, row, rowArea, areas, u, rect, flush, cells, r, p.k);
    SplitCells(cells, r, p.k);
    NextStrip(round, ratio, areas, whole, p.rows, p.done, Strip(r, p.k, rect), cells[r..p.k]);
    next := Progress(p.rows + [Strip(r, p.k, rect)], r, cells[r..], rest);
  }

  /** The score of a row. */
  method Rate(areas: seq<real>, row: seq<nat>, rowArea: real, u: real, ratio: real, ghost r: nat, ghost k: nat)
    returns (score: Score)
    requires NonNegative(areas) && RowIs(row, r, k) && k <= |areas| && rowArea == Sum(areas[r..k])
    ensures ratio >= 0.0 ==> Scores(areas[r..k], u, ratio, score)
  {
    RowAreasSum(areas, row, r, k);
    score := Worst(RowAreas(areas, row), rowArea, u, ratio);
    if ratio >= 0.0 {
      SameScore(areas, row, r, k, u, ratio, score);
    }
  }

  /** A child has come to the end of the row: does it stay? */
  method Try(areas: seq<real>, row: seq<nat>, rowArea: real, u: real, ratio: real, best: Score,
             ghost p: Progress, ghost had: seq<nat>, ghost hadArea: real, ghost r: nat)
    returns (stays: bool, score: Score)
    requires NonNegative(areas) && Open(areas, ratio, p, had, r, hadArea, best) && r > 0 && u == Side(p.rect)
    requires row == had + [r-1] && rowArea == hadArea + areas[r-1]
    ensures stays ==> Open(areas, ratio, p, row, r - 1, rowArea, score)
    ensures !stays ==> had != [] && Ended(areas, ratio, p, had, r, hadArea)
  {
    PushChild(areas, ratio, p, had, r, hadArea, best);
    score := Rate(areas, row, rowArea, u, ratio, r - 1, p.k);
    stays := AtMost(score, best);
    if stays {
      TakeChild(areas, ratio, p, had, r, hadArea, best, score);
    } else {
      EndRow(areas, ratio, p, had, r, hadArea, best, score);
    }
  }

  /**
   The loop that places the children with these areas. A child that does not fit well ends the row; as the
   first child of a fresh row is always taken, every child is placed in the end.
   */
  method PlaceRows(round: real -> real, areas: seq<real>, whole: Rect, ratio: real) returns (cells: array<Rect>)
    requires NonNegative(areas) && areas != []
    ensures fresh(cells) && cells.Length == |areas| && Squarified(round, ratio, areas, whole, cells[..])
  {
    cells := new Rect[|areas|](_ => whole);
    var rect, row, rowArea, best := whole, [], 0.0, Infinity;
    var remaining: seq<nat> := seq(|areas|, i => i);
    var u := Min(rect.dx, rect.dy);
    ghost var p := Progress([], |areas|, [], whole);
    FreshRow(areas, ratio, p);
    while |remaining| > 0
      invariant UpTo(remaining) && (row == [] ==> remaining != [])
      invariant Placed(round, ratio, areas, whole, p) && cells[p.k..] == p.done
      invariant Open(areas, ratio, p, row, |remaining|, rowArea, best)
      invariant rect == p.rect && u == Side(rect)
      decreases |remaining|, |row|
    {
      ghost var had, hadArea, r := row, rowArea, |remaining|;
      var child := remaining[|remaining|-1];
      row := row + [child];
      rowArea := rowArea + areas[child];
      var stays, score := Try(areas, row, rowArea, u, ratio, best, p, had, hadArea, r);
      if stays {
        remaining := remaining[..|remaining|-1];
        best := score;
      } else {
        rowArea := rowArea - areas[row[|row|-1]];
        row := row[..|row|-1];
        assert row == had && rowArea == hadArea;
        rect, p := Flush(round, row, rowArea, areas, u, rect, false, cells, ratio, whole, p, r);
        FreshRow(areas, ratio, p);
        u := Min(rect.dx, rect.dy);
        row, rowArea, best := [], 0.0, Infinity;
      }
    }
    rect, p := Flush(round, row, rowArea, areas, u, rect, true, cells, ratio, whole, p, 0);
    assert cells[0..] == cells[..];
  }

  /** The cells of children with these areas. */
  method Arrange(round: real -> real, areas: seq<real>, whole: Rect, ratio: real) returns (cells: array<Rect>)
    requires KeepsSign(round) && NonNegative(areas) && areas != [] && Sized(whole)
    ensures fresh(cells) && cells.Length == |areas| && Tiles(cells[..], whole)
    ensures Squarified(round, ratio, areas, whole, cells[..])
    ensures Identity(round) && Measures(whole, Sum(areas)) ==> Exact(cells[..], areas)
  {
    cells := PlaceRows(round, areas, whole, ratio);
    SquarifiedTiles(round, ratio, areas, whole, cells[..]);
  }
}
