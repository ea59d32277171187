/**
 The squarified treemap of the bundled d3 library (www/d3.v2.js), over real numbers: rows of children
 are cut off a rectangle one after the other until nothing of it is left.
 */
module TreemapRows {

  datatype Rect = Rect(x: real, y: real, dx: real, dy: real)

  predicate Sized(r: Rect) {
    r.dx >= 0.0 && r.dy >= 0.0
  }

  /** The points of a rectangle, its left and upper edge included and the other two not. */
  predicate Has(r: Rect, px: real, py: real) {
    r.x <= px < r.x + r.dx && r.y <= py < r.y + r.dy
  }

  function One(r: Rect, px: real, py: real): nat {
    if Has(r, px, py) then 1 else 0
  }

  /** How many of the rectangles have the point. */
  function Cover(cells: seq<Rect>, px: real, py: real): nat {
    if cells == [] then 0 else One(cells[0], px, py) + Cover(cells[1..], px, py)
  }

  /** Every point of the rectangle is in exactly one cell, and every other point in none. */
  ghost predicate Tiles(cells: seq<Rect>, r: Rect) {
    AllSized(cells) && forall px, py :: Cover(cells, px, py) == One(r, px, py)
  }

  // ----------------------------------------------------------------- cutting rectangles

  /** The second covers what the first does, and the rectangle once more. */
  ghost predicate Adds(base: seq<Rect>, cells: seq<Rect>, r: Rect) {
    forall px, py :: Cover(cells, px, py) == Cover(base, px, py) + One(r, px, py)
  }

  /** The two parts make up the whole. */
  ghost predicate Splits(whole: Rect, a: Rect, b: Rect) {
    forall px, py :: One(whole, px, py) == One(a, px, py) + One(b, px, py)
  }

  lemma AddsCell(base: seq<Rect>, cells: seq<Rect>, r: Rect, c: Rect, whole: Rect)
    requires Adds(base, cells, r) && Splits(whole, r, c)
    ensures Adds(base, [c] + cells, whole)
  {
    forall px, py ensures Cover([c] + cells, px, py) == Cover(base, px, py) + One(whole, px, py) {
      assert ([c] + cells)[1..] == cells;
      assert One(whole, px, py) == One(r, px, py) + One(c, px, py);
      assert Cover(cells, px, py) == Cover(base, px, py) + One(r, px, py);
    }
  }

  // A row lies along one side of the rectangle: `wide` along its width, else along its height.

  function Length(wide: bool, r: Rect): real { if wide then r.dx else r.dy }

  function Depth(wide: bool, r: Rect): real { if wide then r.dy else r.dx }

  function Start(wide: bool, r: Rect): real { if wide then r.x else r.y }

  /** The part of a row from `a` on that is `l` long and `v` deep. */
  function Piece(wide: bool, r: Rect, a: real, l: real, v: real): Rect {
    if wide then Rect(a, r.y, l, v) else Rect(r.x, a, v, l)
  }

  /** What is left of the rectangle below or beside the row. */
  function Rest(wide: bool, r: Rect, v: real): Rect {
    if wide then Rect(r.x, r.y + v, r.dx, r.dy - v) else Rect(r.x + v, r.y, r.dx - v, r.dy)
  }

  lemma PieceSplits(wide: bool, r: Rect, a: real, l: real, l': real, v: real)
    requires l >= 0.0 && l' >= 0.0
    ensures Splits(Piece(wide, r, a, l + l', v), Piece(wide, r, a, l, v), Piece(wide, r, a + l, l', v))
  {
  }

  lemma RowSplits(wide: bool, r: Rect, v: real)
    requires 0.0 <= v <= Depth(wide, r)
    ensures Splits(r, Rest(wide, r, v), Piece(wide, r, Start(wide, r), Length(wide, r), v))
  {
  }

  // -------------------------------------------------------------------- placing a row

  function Sum(s: seq<real>): real {
    if s == [] then 0.0 else s[0] + Sum(s[1..])
  }

  function Min(a: real, b: real): real { if a <= b then a else b }

  ghost predicate NonNegative(s: seq<real>) {
    forall i | 0 <= i < |s| :: s[i] >= 0.0
  }

  /** Rounding that keeps what is not negative so. */
  ghost predicate KeepsSign(round: real -> real) {
    forall r :: r >= 0.0 ==> round(r) >= 0.0
  }

  ghost predicate Identity(round: real -> real) {
    forall r :: round(r) == r
  }

  /** A product, named so that equal factors can be put for each other. */
  ghost predicate Product(a: real, b: real, c: real) {
    a * b == c
  }

  ghost predicate Measures(c: Rect, area: real) {
    Product(c.dx, c.dy, area)
  }

  /** Each cell has the area that its child is due. */
  ghost predicate Exact(cells: seq<Rect>, areas: seq<real>) {
    |cells| == |areas| && forall i | 0 <= i < |cells| :: Measures(cells[i], areas[i])
  }

  ghost predicate AllSized(cells: seq<Rect>) {
    forall i | 0 <= i < |cells| :: Sized(cells[i])
  }

  /** A row: the lengths that its children ask for, where it lies in the rectangle and how deep it is. */
  datatype Row = Row(wishes: seq<real>, wide: bool, rect: Rect, v: real) {

    function First(): real { Start(wide, rect) }

    function End(): real { Start(wide, rect) + Length(wide, rect) }

    function Cell(a: real, l: real): Rect { Piece(wide, rect, a, l, v) }

    ghost predicate Proper() {
      NonNegative(wishes) && Sized(rect) && 0.0 <= v <= Depth(wide, rect)
    }
  }

  function To(wide: bool, c: Rect): real { Start(wide, c) + Length(wide, c) }

  /** A cell of the row, right behind the next child: the last child is placed first. */
  ghost predicate Follows(row: Row, cells: seq<Rect>, j: nat)
    requires j < |cells|
  {
    && cells[j] == row.Cell(Start(row.wide, cells[j]), Length(row.wide, cells[j]))
    && Start(row.wide, cells[j]) == if j == |cells| - 1 then row.First() else To(row.wide, cells[j+1])
  }

  /** It gets the length that it asks for, if there is so much. */
  ghost predicate Gets(row: Row, cells: seq<Rect>, j: nat)
    requires j < |cells| == |row.wishes|
  {
    Length(row.wide, cells[j]) == Min(row.End() - Start(row.wide, cells[j]), row.wishes[j])
  }

  /** The cells of the row: side by side, and the first child, placed last, goes on up to the end. */
  ghost predicate IsRow(row: Row, cells: seq<Rect>) {
    && |cells| == |row.wishes|
    && (forall j | 0 <= j < |cells| :: Follows(row, cells, j))
    && (forall j | 0 < j < |cells| :: Gets(row, cells, j))
    && (cells != [] ==> To(row.wide, cells[0]) == row.End())
  }

  lemma {:induction false} CellFits(row: Row, cells: seq<Rect>, j: nat)
    requires row.Proper() && IsRow(row, cells) && j < |cells|
    ensures row.First() <= Start(row.wide, cells[j]) <= To(row.wide, cells[j]) <= row.End()
    decreases |cells| - j
  {
    assert Follows(row, cells, j);
    if j == |cells| - 1 {
    } else {
      CellFits(row, cells, j + 1);
    }
    assert j > 0 ==> Gets(row, cells, j);
  }

  lemma RowSized(row: Row, cells: seq<Rect>)
    requires row.Proper() && IsRow(row, cells)
    ensures AllSized(cells)
  {
    forall j | 0 <= j < |cells| ensures Sized(cells[j]) {
      CellFits(row, cells, j);
      assert Follows(row, cells, j);
    }
  }

  lemma CellAdds(row: Row, a: real, l: real, cells: seq<Rect>, base: seq<Rect>)
    requires row.First() <= a && l >= 0.0
    requires Adds(base, cells, row.Cell(row.First(), a - row.First()))
    ensures Adds(base, [row.Cell(a, l)] + cells, row.Cell(row.First(), a + l - row.First()))
  {
    var s := row.First();
    PieceSplits(row.wide, row.rect, s, a - s, l, row.v);
    AddsCell(base, cells, row.Cell(s, a - s), row.Cell(a, l), row.Cell(s, a + l - s));
  }

  lemma AddsNothing(row: Row, a: real, base: seq<Rect>)
    ensures Adds(base, base, row.Cell(a, 0.0))
  {
  }

  lemma {:induction false} CellsFill(row: Row, cells: seq<Rect>, j: nat, base: seq<Rect>)
    requires row.Proper() && IsRow(row, cells) && j < |cells|
    ensures Adds(base, cells[j..] + base, row.Cell(row.First(), To(row.wide, cells[j]) - row.First()))
    decreases |cells| - j
  {
    var a, l := Start(row.wide, cells[j]), Length(row.wide, cells[j]);
    assert Follows(row, cells, j);
    CellFits(row, cells, j);
    assert cells[j..] + base == [cells[j]] + (cells[j+1..] + base);
    if j == |cells| - 1 {
      assert cells[j+1..] + base == base;
      AddsNothing(row, a, base);
    } else {
      CellsFill(row, cells, j + 1, base);
    }
    CellAdds(row, a, l, cells[j+1..] + base, base);
  }

  /** The cells of a row fill it. */
  lemma RowFills(row: Row, cells: seq<Rect>, base: seq<Rect>)
    requires row.Proper() && IsRow(row, cells) && cells != []
    ensures Adds(base, cells + base, row.Cell(row.First(), Length(row.wide, row.rect)))
  {
    CellsFill(row, cells, 0, base);
    assert cells[0..] == cells;
  }

  // ------------------------------------------------------------------ areas in a row

  lemma SumNonNegative(s: seq<real>)
    requires NonNegative(s)
    ensures Sum(s) >= 0.0
  {
    if s == [] {
    } else {
      SumNonNegative(s[1..]);
    }
  }

  lemma SumSplit(s: seq<real>, k: nat)
    requires k <= |s|
    ensures Sum(s) == Sum(s[..k]) + Sum(s[k..])
  {
    if k == 0 {
    } else {
      SumSplit(s[1..], k - 1);
      assert s[..k][1..] == s[1..][..k-1];
      assert s[1..][k-1..] == s[k..];
    }
  }

  lemma SumFront(s: seq<real>, i: nat)
    requires i < |s|
    ensures Sum(s[..i+1]) == Sum(s[..i]) + s[i]
  {
    SumSplit(s[..i+1], i);
    assert s[..i+1][..i] == s[..i] && s[..i+1][i..] == [s[i]];
    assert Sum([s[i]]) == s[i] + Sum([]);
  }

  /** The children ask for just the length that there is. */
  ghost predicate Fitting(row: Row) {
    row.Proper() && Sum(row.wishes) == Length(row.wide, row.rect)
  }

  /** Then every child gets the length that it asks for, and leaves as much as the others ask for. */
  lemma {:induction false} CellLength(row: Row, cells: seq<Rect>, j: nat)
    requires Fitting(row) && IsRow(row, cells) && j < |cells|
    ensures row.End() - Start(row.wide, cells[j]) == Sum(row.wishes[..j+1])
    ensures Length(row.wide, cells[j]) == row.wishes[j]
    decreases |cells| - j
  {
    assert Follows(row, cells, j);
    if j == |cells| - 1 {
      assert row.wishes[..j+1] == row.wishes;
    } else {
      CellLength(row, cells, j + 1);
      SumFront(row.wishes, j + 1);
    }
    SumFront(row.wishes, j);
    SumNonNegative(row.wishes[..j]);
    if j == 0 {
      assert row.wishes[..0] == [];
    } else {
      assert Gets(row, cells, j);
    }
  }

  lemma PieceArea(wide: bool, rect: Rect, a: real, l: real, v: real, area: real)
    requires Product(v, l, area)
    ensures Measures(Piece(wide, rect, a, l, v), area)
  {
  }

  /** The row has no depth, or room for just what the children ask for; and this gives each its area. */
  ghost predicate Tight(row: Row, areas: seq<real>) {
    && row.Proper() && |areas| == |row.wishes|
    && (forall j | 0 <= j < |areas| :: Product(row.v, row.wishes[j], areas[j]))
    && (row.v == 0.0 || Fitting(row))
  }

  lemma CellExact(row: Row, areas: seq<real>, cells: seq<Rect>, j: nat)
    requires Tight(row, areas) && IsRow(row, cells) && j < |cells|
    ensures Measures(cells[j], areas[j])
  {
    var a, l := Start(row.wide, cells[j]), Length(row.wide, cells[j]);
    assert Follows(row, cells, j) && Product(row.v, row.wishes[j], areas[j]);
    if row.v == 0.0 {
      assert Product(row.v, l, areas[j]);
    } else {
      CellLength(row, cells, j);
    }
    PieceArea(row.wide, row.rect, a, l, row.v, areas[j]);
  }

  /** With room for just their areas, the cells have these areas. */
  lemma RowExact(row: Row, areas: seq<real>, cells: seq<Rect>)
    requires Tight(row, areas) && IsRow(row, cells)
    ensures Exact(cells, areas)
  {
    forall j | 0 <= j < |areas| ensures Measures(cells[j], areas[j]) {
      CellExact(row, areas, cells, j);
    }
  }

  // ------------------------------------------------------------------- placing a row

  /** How deep a row is: all that is left for the last row, and never more. */
  function Deep(round: real -> real, rowArea: real, u: real, depth: real, flush: bool): real {
    var v := if u != 0.0 then round(rowArea / u) else 0.0;
    if flush || v > depth then depth else v
  }

  function Wish(round: real -> real, area: real, v: real): real {
    if v != 0.0 then round(area / v) else 0.0
  }

  function Wishes(round: real -> real, areas: seq<real>, v: real): seq<real> {
    seq(|areas|, j requires 0 <= j < |areas| => Wish(round, areas[j], v))
  }

  /** The row that `position` makes of children with these areas. */
  function RowOf(round: real -> real, areas: seq<real>, u: real, rect: Rect, flush: bool): Row {
    var wide := u == rect.dx;
    var v := Deep(round, Sum(areas), u, Depth(wide, rect), flush);
    Row(Wishes(round, areas, v), wide, rect, v)
  }

  lemma RowOfProper(round: real -> real, areas: seq<real>, u: real, rect: Rect, flush: bool)
    requires KeepsSign(round) && NonNegative(areas) && Sized(rect) && u >= 0.0
    ensures RowOf(round, areas, u, rect, flush).Proper()
  {
    SumNonNegative(areas);
    assert u > 0.0 ==> Sum(areas) / u >= 0.0;
    var row := RowOf(round, areas, u, rect, flush);
    forall j | 0 <= j < |areas| ensures row.wishes[j] >= 0.0 {
      assert row.v > 0.0 ==> areas[j] / row.v >= 0.0;
    }
  }

  lemma {:induction false} SumScaled(v: real, w: seq<real>, areas: seq<real>)
    requires |w| == |areas| && forall j | 0 <= j < |w| :: Product(v, w[j], areas[j])
    ensures Product(v, Sum(w), Sum(areas))
    decreases |w|
  {
    if w == [] {
    } else {
      SumScaled(v, w[1..], areas[1..]);
      assert Product(v, w[0], areas[0]);
      assert v * (w[0] + Sum(w[1..])) == v * w[0] + v * Sum(w[1..]);
    }
  }

  lemma Cancel(v: real, a: real, b: real, s: real)
    requires v != 0.0 && Product(v, a, s) && Product(v, b, s)
    ensures a == b
  {
    assert v * (a - b) == 0.0;
  }

  lemma Larger(a: real, b: real, c: real)
    requires a > b && c > 0.0
    ensures a * c > b * c
  {
  }

  /** A row as deep as its area asks for, which fits, or as deep as the rectangle, which its area fills. */
  lemma DeepExact(round: real -> real, rowArea: real, length: real, depth: real, flush: bool, whole: real)
    requires Identity(round) && Product(length, depth, whole) && length >= 0.0 && depth >= 0.0
    requires 0.0 <= rowArea <= whole && (flush ==> rowArea == whole)
    ensures Product(Deep(round, rowArea, length, depth, flush), length, rowArea)
  {
    if length > 0.0 && !flush {
      var v := rowArea / length;
      assert v * length == rowArea;
      if v > depth {
        Larger(v, depth, length);
      }
    }
  }

  lemma WishesAsk(round: real -> real, areas: seq<real>, v: real)
    requires Identity(round) && (v == 0.0 ==> forall j | 0 <= j < |areas| :: areas[j] == 0.0)
    ensures forall j | 0 <= j < |areas| :: Product(v, Wishes(round, areas, v)[j], areas[j])
  {
    forall j | 0 <= j < |areas| ensures Product(v, Wishes(round, areas, v)[j], areas[j]) {
      assert v != 0.0 ==> v * (areas[j] / v) == areas[j];
    }
  }

  lemma WishesFit(v: real, w: seq<real>, areas: seq<real>, length: real)
    requires v != 0.0 && |w| == |areas| && forall j | 0 <= j < |areas| :: Product(v, w[j], areas[j])
    requires Product(v, length, Sum(areas))
    ensures Sum(w) == length
  {
    SumScaled(v, w, areas);
    Cancel(v, Sum(w), length, Sum(areas));
  }

  /** A row lies along the shorter side. */
  lemma Sides(rect: Rect, whole: real)
    requires Measures(rect, whole)
    ensures var u := Min(rect.dx, rect.dy);
            u == Length(u == rect.dx, rect) && Product(u, Depth(u == rect.dx, rect), whole)
  {
  }

  lemma TightRow(round: real -> real, areas: seq<real>, row: Row, length: real)
    requires Identity(round) && NonNegative(areas) && row.Proper() && row.wishes == Wishes(round, areas, row.v)
    requires Product(row.v, length, Sum(areas)) && length == Length(row.wide, row.rect)
    ensures Tight(row, areas)
  {
    if row.v == 0.0 {
      ZeroSum(areas);
    }
    WishesAsk(round, areas, row.v);
    if row.v != 0.0 {
      WishesFit(row.v, row.wishes, areas, length);
    }
  }

  /** The row takes the area of its children off the rectangle, and each gets its own. */
  lemma RowOfTight(round: real -> real, areas: seq<real>, rect: Rect, flush: bool, whole: real)
    requires KeepsSign(round) && Identity(round) && NonNegative(areas) && Sized(rect) && Measures(rect, whole)
    requires Sum(areas) <= whole && (flush ==> Sum(areas) == whole)
    ensures var u := Min(rect.dx, rect.dy);
            var row := RowOf(round, areas, u, rect, flush);
            Tight(row, areas) && Product(row.v, u, Sum(areas))
  {
    var u := Min(rect.dx, rect.dy);
    RowOfProper(round, areas, u, rect, flush);
    Sides(rect, whole);
    SumNonNegative(areas);
    DeepExact(round, Sum(areas), u, Depth(u == rect.dx, rect), flush, whole);
    TightRow(round, areas, RowOf(round, areas, u, rect, flush), u);
  }

  lemma ZeroSum(s: seq<real>)
    requires NonNegative(s) && Sum(s) == 0.0
    ensures forall i | 0 <= i < |s| :: s[i] == 0.0
  {
    if s == [] {
    } else {
      SumNonNegative(s[1..]);
      ZeroSum(s[1..]);
      assert forall i | 0 < i < |s| :: s[i] == s[1..][i-1];
    }
  }

  /** The row holds the children from `r` to `k`, the last one first. */
  ghost predicate RowIs(row: seq<nat>, r: nat, k: nat) {
    r <= k && |row| == k - r && forall i | 0 <= i < |row| :: row[i] == k - 1 - i
  }

  function Stretch(wide: bool, c: Rect, more: real): Rect {
    if wide then c.(dx := c.dx + more) else c.(dy := c.dy + more)
  }

  /** The children from number `m` on are placed. */
  ghost predicate Part(row: Row, cells: seq<Rect>, m: nat) {
    && |cells| == |row.wishes|
    && forall j | m <= j < |cells| :: Follows(row, cells, j) && Gets(row, cells, j)
  }

  /** Where the next cell starts. */
  ghost function Next(row: Row, cells: seq<Rect>, m: nat): real
    requires m <= |cells|
  {
    if m == |cells| then row.First() else To(row.wide, cells[m])
  }

  lemma PartNext(row: Row, cells: seq<Rect>, m: nat)
    requires Part(row, cells, m) && 0 < m <= |cells|
    ensures var a := Next(row, cells, m);
            var l := Min(row.End() - a, row.wishes[m-1]);
            var cells' := cells[m-1 := row.Cell(a, l)];
            Part(row, cells', m - 1) && Next(row, cells', m - 1) == a + l
  {
    var a := Next(row, cells, m);
    var cells' := cells[m-1 := row.Cell(a, Min(row.End() - a, row.wishes[m-1]))];
    forall j | m <= j < |cells| ensures Follows(row, cells', j) && Gets(row, cells', j) {
      assert Follows(row, cells, j) && Gets(row, cells, j);
    }
  }

  lemma PartDone(row: Row, cells: seq<Rect>)
    requires Part(row, cells, 0) && cells != []
    ensures IsRow(row, cells[0 := Stretch(row.wide, cells[0], row.End() - Next(row, cells, 0))])
  {
    var cells' := cells[0 := Stretch(row.wide, cells[0], row.End() - Next(row, cells, 0))];
    assert Follows(row, cells, 0);
    forall j | 0 < j < |cells| ensures Follows(row, cells', j) && Gets(row, cells', j) {
      assert Follows(row, cells, j) && Gets(row, cells, j);
    }
  }

  method Put(cells: array<Rect>, j: nat, c: Rect, ghost r: nat, ghost k: nat)
    requires r <= j < k <= cells.Length
    modifies cells
    ensures cells[..r] == old(cells[..r]) && cells[k..] == old(cells[k..])
    ensures cells[r..k] == old(cells[r..k])[j-r := c]
  {
    cells[j] := c;
  }

  /** The children of a row side by side; the one placed last then goes on up to the end. */
  method LayRow(round: real -> real, row: seq<nat>, areas: seq<real>, wide: bool, rect: Rect, v: real,
                cells: array<Rect>, ghost r: nat, ghost k: nat)
    requires RowIs(row, r, k) && r < k <= cells.Length == |areas|
    modifies cells
    ensures cells[..r] == old(cells[..r]) && cells[k..] == old(cells[k..])
    ensures IsRow(Row(Wishes(round, areas[r..k], v), wide, rect, v), cells[r..k])
  {
    ghost var strip := Row(Wishes(round, areas[r..k], v), wide, rect, v);
    var end := Start(wide, rect) + Length(wide, rect);
    var a, i := Start(wide, rect), 0;
    while i < |row|
      invariant 0 <= i <= |row| && cells[..r] == old(cells[..r]) && cells[k..] == old(cells[k..])
      invariant Part(strip, cells[r..k], |row| - i) && a == Next(strip, cells[r..k], |row| - i)
    {
      PartNext(strip, cells[r..k], |row| - i);
      var l := Min(end - a, Wish(round, areas[row[i]], v));
      Put(cells, row[i], Piece(wide, rect, a, l, v), r, k);
      a := a + l;
      i := i + 1;
    }
    PartDone(strip, cells[r..k]);
    Put(cells, row[|row|-1], Stretch(wide, cells[row[|row|-1]], end - a), r, k);
  }

  /** One row is placed; what is left of the rectangle comes back. */
  method Position(round: real -> real, row: seq<nat>, rowArea: real, areas: seq<real>, u: real, rect: Rect, flush: bool,
                  cells: array<Rect>, ghost r: nat, ghost k: nat)
    returns (rest: Rect)
    requires RowIs(row, r, k) && r < k <= cells.Length == |areas| && rowArea == Sum(areas[r..k])
    modifies cells
    ensures cells[..r] == old(cells[..r]) && cells[k..] == old(cells[k..])
    ensures var strip := RowOf(round, areas[r..k], u, rect, flush);
            IsRow(strip, cells[r..k]) && rest == Rest(strip.wide, rect, strip.v)
  {
    var wide := u == rect.dx;
    var v := Deep(round, rowArea, u, Depth(wide, rect), flush);
    LayRow(round, row, areas, wide, rect, v, cells, r, k);
    rest := Rest(wide, rect, v);
  }
}
