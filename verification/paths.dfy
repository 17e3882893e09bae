/**
 The table of winning paths built by `Game._calc_winning_paths`: the 49
 three-square lines of the cube, each listed so that its highest square
 comes first.

 `PathIndex` reads a line's table index off its middle square and its
 direction (up to sign), so it depends only on the line's cells. Together
 with `PathIndex(WinningPaths()[k]) == k` this shows that no line is listed
 twice and that every line of the cube is listed.
 */
module Paths {
  import opened Geometry

  /** A winning path: its squares in table order. */
  type Path = seq<Pos>

  /** Number of entries in the table. */
  const PathCount: int := 49

  // ---------------------------------------------------------------------
  // The paths, one function per list comprehension of the source. A path
  // over `RANGE_SIZE_REVERSED` takes its k-th coordinate as `Invert(k)`
  // (see `Geometry.InvertInvolution`).
  // ---------------------------------------------------------------------

  function Row(y: int, z: int): Path {
    seq(Size, x => Pos(x, y, z))
  }

  function Column(x: int, z: int): Path {
    seq(Size, y => Pos(x, y, z))
  }

  function Diagonal(z: int): Path {
    seq(Size, i => Pos(i, i, z))
  }

  function AntiDiagonal(z: int): Path {
    seq(Size, i => Pos(Invert(i), i, z))
  }

  function Vertical(x: int, y: int): Path {
    seq(Size, k => Pos(x, y, Invert(k)))
  }

  function ColumnStair(x: int): Path {
    seq(Size, k => Pos(x, Invert(k), Invert(k)))
  }

  function InvertedColumnStair(x: int): Path {
    seq(Size, k => Pos(x, Invert(Invert(k)), Invert(k)))
  }

  function RowStair(y: int): Path {
    seq(Size, k => Pos(Invert(k), y, Invert(k)))
  }

  function InvertedRowStair(y: int): Path {
    seq(Size, k => Pos(Invert(Invert(k)), y, Invert(k)))
  }

  function Flip(flip: bool, i: int): int {
    if flip then Invert(i) else i
  }

  /** The four diagonals through the centre of the cube. */
  function CubeDiagonal(flipX: bool, flipY: bool): Path {
    seq(Size, k => Pos(Flip(flipX, Invert(k)), Flip(flipY, Invert(k)), Invert(k)))
  }

  /** Rows, then columns, then the two diagonals of level `z`. */
  function LevelPaths(z: int): seq<Path> {
    seq(Size, y => Row(y, z)) + seq(Size, x => Column(x, z)) + [Diagonal(z), AntiDiagonal(z)]
  }

  /** For one `x`: the verticals, then the two column stairs. */
  function ColumnGroup(x: int): seq<Path> {
    seq(Size, y => Vertical(x, y)) + [ColumnStair(x), InvertedColumnStair(x)]
  }

  /** For one `y`: the two row stairs. */
  function RowGroup(y: int): seq<Path> {
    [RowStair(y), InvertedRowStair(y)]
  }

  function CubeDiagonals(): seq<Path> {
    [CubeDiagonal(false, false), CubeDiagonal(false, true),
     CubeDiagonal(true, false), CubeDiagonal(true, true)]
  }

  /** `Game._winning_paths`, in the order `_calc_winning_paths` appends them. */
  function WinningPaths(): seq<Path> {
    LevelPaths(0) + LevelPaths(1) + LevelPaths(2)
    + ColumnGroup(0) + ColumnGroup(1) + ColumnGroup(2)
    + RowGroup(0) + RowGroup(1) + RowGroup(2)
    + CubeDiagonals()
  }

  // ---------------------------------------------------------------------
  // Lines
  // ---------------------------------------------------------------------

  datatype Delta = Delta(dx: int, dy: int, dz: int)

  function Step(a: Pos, b: Pos): Delta {
    Delta(b.x - a.x, b.y - a.y, b.z - a.z)
  }

  function Neg(d: Delta): Delta {
    Delta(-d.dx, -d.dy, -d.dz)
  }

  predicate IsUnit(d: Delta) {
    -1 <= d.dx <= 1 && -1 <= d.dy <= 1 && -1 <= d.dz <= 1 && d != Delta(0, 0, 0)
  }

  /** Three in-bounds squares, each one unit step from the previous one in
      the same direction. */
  predicate IsLine(p: Path) {
    && |p| == Size
    && InBounds(p[0]) && InBounds(p[1]) && InBounds(p[2])
    && Step(p[0], p[1]) == Step(p[1], p[2])
    && IsUnit(Step(p[1], p[2]))
  }

  /** The first square has the highest level of the path. */
  predicate TopFirst(p: Path) {
    forall k :: 0 <= k < |p| ==> p[k].z <= p[0].z
  }

  function Cells(p: Path): set<Pos> {
    set q | q in p
  }

  /** A line's three squares are distinct. */
  lemma LineDistinct(p: Path)
    requires IsLine(p)
    ensures p[0] != p[1] && p[1] != p[2] && p[0] != p[2]
    ensures |Cells(p)| == Size
  {
    var d := Step(p[1], p[2]);
    assert p[0] != p[1] by {
      assert Step(p[0], p[1]) == d;
    }
    assert p[0] != p[2] by {
      assert Step(p[0], p[2]) == Delta(2 * d.dx, 2 * d.dy, 2 * d.dz);
    }
    forall i, j | 0 <= i < j < |p|
      ensures p[i] != p[j]
    {
      assert i == 0 || i == 1;
      assert j == 1 || j == 2;
    }
    DistinctCard(p);
  }

  /** The direction of a line with its sign fixed: upwards, or within a
      level towards larger y, or along a row towards larger x. */
  function Normal(d: Delta): (n: Delta)
    ensures n == d || n == Neg(d)
  {
    if d.dz < 0 || (d.dz == 0 && (d.dy < 0 || (d.dy == 0 && d.dx < 0))) then Neg(d) else d
  }

  /** A line is fixed by its middle square and its normalised direction. */
  function Canon(p: Path): (Pos, Delta)
    requires |p| == Size
  {
    (p[1], Normal(Step(p[1], p[2])))
  }

  /** A normalised direction points upwards, or within a level towards
      larger y, or along a row towards larger x. */
  predicate Upward(n: Delta) {
    n.dz > 0 || (n.dz == 0 && (n.dy > 0 || (n.dy == 0 && n.dx > 0)))
  }

  lemma NormalUpward(d: Delta)
    requires IsUnit(d)
    ensures IsUnit(Normal(d)) && Upward(Normal(d))
  {
  }

  /** The table index of the line through middle square `m` in normalised
      direction `n`. */
  function IndexOf(m: Pos, n: Delta): int {
    if n.dz == 0 then
      8 * m.z + (if n.dy == 0 then m.y else if n.dx == 0 then 3 + m.x else if n.dx == n.dy then 6 else 7)
    else if n.dx == 0 && n.dy == 0 then 24 + 5 * m.x + m.y
    else if n.dx == 0 then 24 + 5 * m.x + (if n.dy > 0 then 3 else 4)
    else if n.dy == 0 then 39 + 2 * m.y + (if n.dx > 0 then 0 else 1)
    else 45 + (if n.dx > 0 then 0 else 2) + (if n.dy > 0 then 0 else 1)
  }

  /** The index in `WinningPaths()` of the entry lying on the same line. */
  function PathIndex(p: Path): (k: int)
    requires IsLine(p)
    ensures 0 <= k < PathCount
  {
    NormalUpward(Step(p[1], p[2]));
    IndexOf(p[1], Normal(Step(p[1], p[2])))
  }

  function Shift(p: Pos, d: Delta): Pos {
    Pos(p.x + d.dx, p.y + d.dy, p.z + d.dz)
  }

  /** A line is its middle square with one step back and one step on. */
  lemma LineShape(p: Path)
    requires IsLine(p)
    ensures p[0] == Shift(p[1], Neg(Step(p[1], p[2])))
    ensures p[2] == Shift(p[1], Step(p[1], p[2]))
  {
  }

  lemma InCells(x: Pos, p: Path)
    requires |p| == Size
    ensures x in Cells(p) <==> x == p[0] || x == p[1] || x == p[2]
  {
    if x in Cells(p) {
      var i :| 0 <= i < |p| && p[i] == x;
      assert i == 0 || i == 1 || i == 2;
    }
  }

  /** Opposite directions normalise alike. */
  lemma NormalNeg(d: Delta)
    requires d != Delta(0, 0, 0)
    ensures Normal(Neg(d)) == Normal(d)
  {
  }

  /** Lines with the same cells share their middle square and their
      direction up to sign. */
  lemma SameCellsSameCanon(p: Path, q: Path)
    requires IsLine(p) && IsLine(q)
    requires Cells(p) == Cells(q)
    ensures Canon(p) == Canon(q)
  {
    LineDistinct(p);
    LineDistinct(q);
    LineShape(p);
    LineShape(q);
    InCells(q[0], p);
    InCells(q[1], p);
    InCells(q[2], p);
    assert q[0] in Cells(q) && q[1] in Cells(q) && q[2] in Cells(q);
    var d := Step(p[1], p[2]);
    var e := Step(q[1], q[2]);
    if q[1] == p[0] || q[1] == p[2] {
      assert false;
    }
    assert q[1] == p[1];
    if e != d {
      assert e == Neg(d);
      NormalNeg(d);
    }
  }

  /** Lines with the same middle square and direction up to sign have the
      same cells. */
  lemma SameCanonSameCells(p: Path, q: Path)
    requires IsLine(p) && IsLine(q)
    requires Canon(p) == Canon(q)
    ensures Cells(p) == Cells(q)
  {
    LineShape(p);
    LineShape(q);
    var d := Step(p[1], p[2]);
    var e := Step(q[1], q[2]);
    assert e == d || e == Neg(d);
    forall x
      ensures x in Cells(p) <==> x in Cells(q)
    {
      InCells(x, p);
      InCells(x, q);
    }
  }

  /** The line at a table index, as its middle square and normalised
      direction: the inverse of `PathIndex`. */
  function Decode(k: int): (Pos, Delta) {
    if k < 24 then
      var z := if k < 8 then 0 else if k < 16 then 1 else 2;
      var r := k - 8 * z;
      if r < 3 then (Pos(1, r, z), Delta(1, 0, 0))
      else if r < 6 then (Pos(r - 3, 1, z), Delta(0, 1, 0))
      else if r == 6 then (Pos(1, 1, z), Delta(1, 1, 0))
      else (Pos(1, 1, z), Delta(-1, 1, 0))
    else if k < 39 then
      var x := if k < 29 then 0 else if k < 34 then 1 else 2;
      var r := k - 24 - 5 * x;
      if r < 3 then (Pos(x, r, 1), Delta(0, 0, 1))
      else if r == 3 then (Pos(x, 1, 1), Delta(0, 1, 1))
      else (Pos(x, 1, 1), Delta(0, -1, 1))
    else if k < 45 then
      var y := if k < 41 then 0 else if k < 43 then 1 else 2;
      (Pos(1, y, 1), if k - 39 - 2 * y == 0 then Delta(1, 0, 1) else Delta(-1, 0, 1))
    else
      var r := k - 45;
      (Pos(1, 1, 1), Delta(if r < 2 then 1 else -1, if r == 0 || r == 2 then 1 else -1, 1))
  }

  /** A coordinate along which a line moves sits in the middle at the
      line's middle square. */
  lemma MiddleForced(p: Path)
    requires IsLine(p)
    ensures Step(p[1], p[2]).dx != 0 ==> p[1].x == 1
    ensures Step(p[1], p[2]).dy != 0 ==> p[1].y == 1
    ensures Step(p[1], p[2]).dz != 0 ==> p[1].z == 1
  {
    LineShape(p);
  }

  /** The middle square and direction a line can have: the middle square
      sits in the middle of every coordinate the line moves along. */
  predicate Middle(m: Pos, n: Delta) {
    && InBounds(m) && IsUnit(n) && Upward(n)
    && (n.dx != 0 ==> m.x == 1)
    && (n.dy != 0 ==> m.y == 1)
    && (n.dz != 0 ==> m.z == 1)
  }

  /** Within-level lines: rows, columns and the two diagonals. */
  lemma DecodeLevel(m: Pos, n: Delta)
    requires Middle(m, n) && n.dz == 0
    ensures Decode(IndexOf(m, n)) == (m, n)
  {
    if n.dy == 0 {
      assert n == Delta(1, 0, 0);
    } else if n.dx == 0 {
      assert n == Delta(0, 1, 0);
    } else if n.dx == n.dy {
      assert n == Delta(1, 1, 0);
    } else {
      assert n == Delta(-1, 1, 0);
    }
  }

  /** Verticals and column stairs: lines across levels with constant x. */
  lemma DecodeColumn(m: Pos, n: Delta)
    requires Middle(m, n) && n.dz != 0 && n.dx == 0
    ensures Decode(IndexOf(m, n)) == (m, n)
  {
    assert n.dz == 1;
  }

  /** Row stairs and cube diagonals: lines across levels along which x moves. */
  lemma DecodeSlant(m: Pos, n: Delta)
    requires Middle(m, n) && n.dz != 0 && n.dx != 0
    ensures Decode(IndexOf(m, n)) == (m, n)
  {
    assert n.dz == 1;
  }

  /** `Decode` recovers a line's middle square and direction from its index. */
  lemma DecodePathIndex(p: Path)
    requires IsLine(p)
    ensures Decode(PathIndex(p)) == Canon(p)
  {
    MiddleForced(p);
    NormalUpward(Step(p[1], p[2]));
    var m := p[1];
    var n := Normal(Step(p[1], p[2]));
    assert Middle(m, n);
    if n.dz == 0 {
      DecodeLevel(m, n);
    } else if n.dx == 0 {
      DecodeColumn(m, n);
    } else {
      DecodeSlant(m, n);
    }
  }

  /** `PathIndex` tells lines apart. */
  lemma SameIndexSameCanon(p: Path, q: Path)
    requires IsLine(p) && IsLine(q)
    requires PathIndex(p) == PathIndex(q)
    ensures Canon(p) == Canon(q)
  {
    DecodePathIndex(p);
    DecodePathIndex(q);
  }

  /** Two lines have the same cells exactly when `PathIndex` maps them to
      the same table entry. */
  lemma PathIndexCharacterisesCells(p: Path, q: Path)
    requires IsLine(p) && IsLine(q)
    ensures Cells(p) == Cells(q) <==> PathIndex(p) == PathIndex(q)
  {
    if Cells(p) == Cells(q) {
      SameCellsSameCanon(p, q);
      DecodePathIndex(p);
      DecodePathIndex(q);
      SameIndexFromCanon(p, q);
    }
    if PathIndex(p) == PathIndex(q) {
      SameIndexSameCanon(p, q);
      SameCanonSameCells(p, q);
    }
  }

  /** The index depends on the line's middle square and direction only. */
  lemma SameIndexFromCanon(p: Path, q: Path)
    requires IsLine(p) && IsLine(q)
    requires Canon(p) == Canon(q)
    ensures PathIndex(p) == PathIndex(q)
  {
  }

  // ---------------------------------------------------------------------
  // The table
  // ---------------------------------------------------------------------

  predicate Entry(p: Path, k: int) {
    IsLine(p) && TopFirst(p) && PathIndex(p) == k
  }

  /** Every path of `ps` is a line listed top first, and sits at its own
      index when `ps` starts at table index `offset`. */
  predicate Listed(ps: seq<Path>, offset: int) {
    forall i :: 0 <= i < |ps| ==> Entry(ps[i], offset + i)
  }

  lemma ListedConcat(a: seq<Path>, b: seq<Path>, offset: int)
    requires Listed(a, offset) && Listed(b, offset + |a|)
    ensures Listed(a + b, offset)
  {
    forall i | 0 <= i < |a + b|
      ensures Entry((a + b)[i], offset + i)
    {
      if i >= |a| {
        assert (a + b)[i] == b[i - |a|];
      }
    }
  }

  lemma LevelPathsListed(z: int)
    requires 0 <= z < Size
    ensures |LevelPaths(z)| == 8
    ensures Listed(LevelPaths(z), 8 * z)
  {
    var ps := LevelPaths(z);
    forall i | 0 <= i < |ps|
      ensures Entry(ps[i], 8 * z + i)
    {
      if i < 3 {
        assert ps[i] == Row(i, z);
      } else if i < 6 {
        assert ps[i] == Column(i - 3, z);
      } else if i == 6 {
        assert ps[i] == Diagonal(z);
      } else {
        assert ps[i] == AntiDiagonal(z);
      }
    }
  }

  lemma VerticalEntry(x: int, y: int)
    requires 0 <= x < Size && 0 <= y < Size
    ensures Entry(Vertical(x, y), 24 + 5 * x + y)
  {
    var p := Vertical(x, y);
    assert p == [Pos(x, y, 2), Pos(x, y, 1), Pos(x, y, 0)];
  }

  lemma ColumnStairEntries(x: int)
    requires 0 <= x < Size
    ensures Entry(ColumnStair(x), 24 + 5 * x + 3)
    ensures Entry(InvertedColumnStair(x), 24 + 5 * x + 4)
  {
    var p := ColumnStair(x);
    assert p == [Pos(x, 2, 2), Pos(x, 1, 1), Pos(x, 0, 0)];
    var q := InvertedColumnStair(x);
    assert q == [Pos(x, 0, 2), Pos(x, 1, 1), Pos(x, 2, 0)];
  }

  lemma ColumnGroupListed(x: int)
    requires 0 <= x < Size
    ensures |ColumnGroup(x)| == 5
    ensures Listed(ColumnGroup(x), 24 + 5 * x)
  {
    var ps := ColumnGroup(x);
    ColumnStairEntries(x);
    forall i | 0 <= i < |ps|
      ensures Entry(ps[i], 24 + 5 * x + i)
    {
      if i < 3 {
        VerticalEntry(x, i);
        assert ps[i] == Vertical(x, i);
      } else if i == 3 {
        assert ps[i] == ColumnStair(x);
      } else {
        assert ps[i] == InvertedColumnStair(x);
      }
    }
  }

  lemma RowStairEntries(y: int)
    requires 0 <= y < Size
    ensures Entry(RowStair(y), 39 + 2 * y)
    ensures Entry(InvertedRowStair(y), 39 + 2 * y + 1)
  {
    var p := RowStair(y);
    assert p == [Pos(2, y, 2), Pos(1, y, 1), Pos(0, y, 0)];
    var q := InvertedRowStair(y);
    assert q == [Pos(0, y, 2), Pos(1, y, 1), Pos(2, y, 0)];
  }

  lemma RowGroupListed(y: int)
    requires 0 <= y < Size
    ensures |RowGroup(y)| == 2
    ensures Listed(RowGroup(y), 39 + 2 * y)
  {
    RowStairEntries(y);
    var ps := RowGroup(y);
    forall i | 0 <= i < |ps|
      ensures Entry(ps[i], 39 + 2 * y + i)
    {
      if i == 0 {
        assert ps[i] == RowStair(y);
      } else {
        assert ps[i] == InvertedRowStair(y);
      }
    }
  }

  lemma CubeDiagonalsListed()
    ensures |CubeDiagonals()| == 4
    ensures Listed(CubeDiagonals(), 45)
  {
    var ps := CubeDiagonals();
    assert ps[0] == [Pos(2, 2, 2), Pos(1, 1, 1), Pos(0, 0, 0)];
    assert ps[1] == [Pos(2, 0, 2), Pos(1, 1, 1), Pos(0, 2, 0)];
    assert ps[2] == [Pos(0, 2, 2), Pos(1, 1, 1), Pos(2, 0, 0)];
    assert ps[3] == [Pos(0, 0, 2), Pos(1, 1, 1), Pos(2, 2, 0)];
    forall i | 0 <= i < |ps|
      ensures Entry(ps[i], 45 + i)
    {
      if i == 0 {
      } else if i == 1 {
      } else if i == 2 {
      } else {
        assert i == 3;
      }
    }
  }

  /** The table has 49 entries; each is a line of three in-bounds squares
      listed with its highest square first, and sits at index `PathIndex`. */
  lemma WinningPathsListed()
    ensures |WinningPaths()| == PathCount
    ensures Listed(WinningPaths(), 0)
  {
    LevelPathsListed(0);
    LevelPathsListed(1);
    LevelPathsListed(2);
    ColumnGroupListed(0);
    ColumnGroupListed(1);
    ColumnGroupListed(2);
    RowGroupListed(0);
    RowGroupListed(1);
    RowGroupListed(2);
    CubeDiagonalsListed();
    var levels := LevelPaths(0) + LevelPaths(1);
    ListedConcat(LevelPaths(0), LevelPaths(1), 0);
    ListedConcat(levels, LevelPaths(2), 0);
    levels := levels + LevelPaths(2);
    var acc := levels + ColumnGroup(0);
    ListedConcat(levels, ColumnGroup(0), 0);
    ListedConcat(acc, ColumnGroup(1), 0);
    acc := acc + ColumnGroup(1);
    ListedConcat(acc, ColumnGroup(2), 0);
    acc := acc + ColumnGroup(2);
    ListedConcat(acc, RowGroup(0), 0);
    acc := acc + RowGroup(0);
    ListedConcat(acc, RowGroup(1), 0);
    acc := acc + RowGroup(1);
    ListedConcat(acc, RowGroup(2), 0);
    acc := acc + RowGroup(2);
    ListedConcat(acc, CubeDiagonals(), 0);
    acc := acc + CubeDiagonals();
    assert acc == WinningPaths();
  }

  /** Every entry is three distinct in-bounds squares on one line, highest
      first. */
  lemma WinningPathsAreLines(k: int)
    requires 0 <= k < |WinningPaths()|
    ensures IsLine(WinningPaths()[k]) && TopFirst(WinningPaths()[k])
    ensures |Cells(WinningPaths()[k])| == Size
  {
    WinningPathsListed();
    var p := WinningPaths()[k];
    assert Entry(p, k);
    LineDistinct(p);
  }

  /** No two entries of the table hold the same squares. */
  lemma WinningPathsNoDuplicates(i: int, j: int)
    requires 0 <= i < |WinningPaths()| && 0 <= j < |WinningPaths()|
    requires i != j
    ensures Cells(WinningPaths()[i]) != Cells(WinningPaths()[j])
  {
    WinningPathsListed();
    PathIndexCharacterisesCells(WinningPaths()[i], WinningPaths()[j]);
  }

  /** Every line of the cube is in the table: the table is exactly the set
      of lines of the 3×3×3 cube. */
  lemma WinningPathsComplete(p: Path)
    requires IsLine(p)
    ensures 0 <= PathIndex(p) < |WinningPaths()|
    ensures Cells(WinningPaths()[PathIndex(p)]) == Cells(p)
  {
    WinningPathsListed();
    PathIndexCharacterisesCells(p, WinningPaths()[PathIndex(p)]);
  }
}
