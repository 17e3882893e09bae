/**
 Board geometry of the 3×3×3 cube: the size constants, positions `(x, y, z)`
 (z is the level), `invert`, and the fixed enumeration of all squares that
 `Game.iter_xyz` yields (x outermost, then y, then z).
 */
module Geometry {

  /** The width of the board. */
  const Size: nat := 3
  const SquaresPerLevel: nat := Size * Size
  const TotalSquares: nat := Size * Size * Size
  /** In-level move offsets (0-based) whose square becomes special. */
  const SpecialSquares: seq<int> := [1, 2, 6, 7]
  const RangeSize: seq<int> := [0, 1, 2]
  const RangeSizeReversed: seq<int> := [2, 1, 0]

  datatype Pos = Pos(x: int, y: int, z: int)

  predicate InBounds(p: Pos) {
    0 <= p.x < Size && 0 <= p.y < Size && 0 <= p.z < Size
  }

  /** `invert(i)`: the mirror image of a coordinate, `SIZE - 1 - i`. */
  function Invert(i: int): int {
    Size - 1 - i
  }

  /** `invert` is an involution that maps the coordinate range onto itself,
      and `RANGE_SIZE_REVERSED` is `RANGE_SIZE` mapped through it. */
  lemma InvertInvolution(i: int)
    ensures Invert(Invert(i)) == i
    ensures 0 <= i < Size <==> 0 <= Invert(i) < Size
    ensures 0 <= i < Size ==> RangeSizeReversed[i] == Invert(RangeSize[i])
  {
  }

  /** Position of a square in the `iter_xyz` enumeration. */
  function Index(p: Pos): int {
    SquaresPerLevel * p.x + Size * p.y + p.z
  }

  /** The square at a given position of the `iter_xyz` enumeration. */
  function At(k: int): Pos {
    Pos(k / SquaresPerLevel, (k / Size) % Size, k % Size)
  }

  /** `Game.iter_xyz`: every square once, x outermost, z innermost. */
  function IterXyz(): (r: seq<Pos>)
    ensures |r| == TotalSquares
    ensures forall k :: 0 <= k < |r| ==> InBounds(r[k]) && Index(r[k]) == k
    ensures forall p :: InBounds(p) ==> 0 <= Index(p) < |r| && r[Index(p)] == p
    ensures forall i, j :: 0 <= i < j < |r| ==> r[i] != r[j]
  {
    var r := seq(TotalSquares, k => At(k));
    assert forall p :: InBounds(p) ==> At(Index(p)) == p;
    r
  }

  /** Every square of the board. */
  function Cube(): set<Pos> {
    set p | p in IterXyz()
  }

  /** The nine squares of level `z`. */
  function LevelSet(z: int): set<Pos> {
    set p | p in Cube() && p.z == z
  }

  lemma CubeMembers(p: Pos)
    ensures p in Cube() <==> InBounds(p)
  {
    if InBounds(p) {
      assert IterXyz()[Index(p)] == p;
    }
  }

  /** A sequence without repetition has as many elements as its set. */
  lemma {:induction false} DistinctCard<T>(s: seq<T>)
    requires forall i, j :: 0 <= i < j < |s| ==> s[i] != s[j]
    ensures |set x | x in s| == |s|
  {
    if |s| > 0 {
      var tail := s[1..];
      DistinctCard(tail);
      assert (set x | x in s) == {s[0]} + (set x | x in tail);
      assert s[0] !in tail;
    }
  }

  /** The board has `TOTAL_SQUARES` squares. */
  lemma CubeCard()
    ensures |Cube()| == TotalSquares
  {
    DistinctCard(IterXyz());
  }

  /** The squares of one level, y inner. */
  function LevelSeq(z: int): (r: seq<Pos>)
    ensures |r| == SquaresPerLevel
    ensures forall k :: 0 <= k < |r| ==> r[k] == Pos(k / Size, k % Size, z)
  {
    seq(SquaresPerLevel, k => Pos(k / Size, k % Size, z))
  }

  /** Every level holds `SQUARES_PER_LEVEL` squares. */
  lemma LevelCard(z: int)
    requires 0 <= z < Size
    ensures |LevelSet(z)| == SquaresPerLevel
  {
    var s := LevelSeq(z);
    forall i, j | 0 <= i < j < |s|
      ensures s[i] != s[j]
    {
      assert Size * (i / Size) + i % Size == i;
      assert Size * (j / Size) + j % Size == j;
    }
    DistinctCard(s);
    forall p | p in LevelSet(z)
      ensures p in s
    {
      CubeMembers(p);
      assert s[Size * p.x + p.y] == p;
    }
    forall p | p in s
      ensures p in LevelSet(z)
    {
      CubeMembers(p);
    }
    assert LevelSet(z) == set x | x in s;
  }
}
