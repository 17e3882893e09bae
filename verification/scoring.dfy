/**
 The scan `Game._handle_tictactoe` makes over the winning paths after a
 square has been filled: which paths the move completed, the points they
 are worth, and the squares to highlight.
 */
module Scoring {
  import opened Geometry
  import opened Squares
  import opened Paths

  /** Points for a completed path. */
  const TicTacToeValue: nat := 1
  /** Points for a completed path whose squares are all special. */
  const SpecialTicTacToeValue: nat := 2

  type Board = map<Pos, Square>

  predicate OnBoard(board: Board, path: Path) {
    forall q | q in path :: q in board
  }

  /** Every square of the path belongs to `player`. */
  predicate Owned(board: Board, path: Path, player: Player)
    requires OnBoard(board, path)
  {
    forall q | q in path :: board[q].value == player
  }

  /** Every square of the path belongs to `player` and is special. */
  predicate OwnedSpecial(board: Board, path: Path, player: Player)
    requires OnBoard(board, path)
  {
    forall q | q in path :: board[q].value == player && board[q].special
  }

  /** The path runs through `pos` and `player` owns all of it. */
  predicate Completes(board: Board, path: Path, pos: Pos, player: Player)
    requires OnBoard(board, path)
  {
    pos in path && Owned(board, path, player)
  }

  /** `hits`: how many squares of the path `player` owns. */
  function Hits(board: Board, path: Path, player: Player): (n: nat)
    requires OnBoard(board, path)
    ensures n <= |path|
    ensures n == |path| <==> Owned(board, path, player)
  {
    if |path| == 0 then 0
    else
      var rest := Hits(board, path[1..], player);
      assert Owned(board, path, player) <==> board[path[0]].value == player && Owned(board, path[1..], player) by {
        assert forall q | q in path :: q == path[0] || q in path[1..];
      }
      (if board[path[0]].value == player then 1 else 0) + rest
  }

  /** `special_hits`: how many squares of the path `player` owns that are
      special. */
  function SpecialHits(board: Board, path: Path, player: Player): (n: nat)
    requires OnBoard(board, path)
    ensures n <= Hits(board, path, player)
    ensures n == |path| <==> OwnedSpecial(board, path, player)
  {
    if |path| == 0 then 0
    else
      var rest := SpecialHits(board, path[1..], player);
      assert OwnedSpecial(board, path, player) <==>
             board[path[0]].value == player && board[path[0]].special && OwnedSpecial(board, path[1..], player) by {
        assert forall q | q in path :: q == path[0] || q in path[1..];
      }
      (if board[path[0]].value == player && board[path[0]].special then 1 else 0) + rest
  }

  /** What one completed path is worth: two points when every square is
      special, one otherwise, none when `player` does not own it all. */
  function PathPoints(board: Board, path: Path, player: Player): (points: nat)
    requires OnBoard(board, path) && |path| == Size
    ensures points == (if OwnedSpecial(board, path, player) then SpecialTicTacToeValue
                       else if Owned(board, path, player) then TicTacToeValue
                       else 0)
  {
    var hits := Hits(board, path, player);
    var specialHits := SpecialHits(board, path, player);
    if specialHits == Size then SpecialTicTacToeValue
    else if hits == Size then TicTacToeValue
    else 0
  }

  /** The points a scan earned and the squares it highlights. */
  datatype Tally = Tally(points: nat, included: seq<Pos>)

  predicate Scannable(board: Board, paths: seq<Path>) {
    forall k :: 0 <= k < |paths| ==> |paths[k]| == Size && OnBoard(board, paths[k])
  }

  /** The loop of `_handle_tictactoe` over `paths` for a move at `pos` by
      `player`: a path whose top square is above the move, or that misses
      the move, is skipped; a path `player` owns is highlighted and scored. */
  function Scan(board: Board, paths: seq<Path>, pos: Pos, player: Player): (t: Tally)
    requires Scannable(board, paths)
    ensures t.points == 0 <==> t.included == []
    ensures forall q | q in t.included ::
              exists k :: 0 <= k < |paths| && Completes(board, paths[k], pos, player) && q in paths[k]
    ensures forall k | 0 <= k < |paths| && paths[k][0].z <= pos.z && Completes(board, paths[k], pos, player) ::
              forall q | q in paths[k] :: q in t.included
  {
    if |paths| == 0 then Tally(0, [])
    else
      var path := paths[0];
      var rest := Scan(board, paths[1..], pos, player);
      assert forall k | 1 <= k < |paths| :: paths[k] == paths[1..][k - 1];
      if pos.z < path[0].z || pos !in path then rest
      else
        var hits := Hits(board, path, player);
        var included := if hits == Size then path else [];
        Tally(PathPoints(board, path, player) + rest.points, included + rest.included)
  }

  /** The same scan without the shortcut on the path's top square: every
      path through `pos` is inspected. */
  function ScanThrough(board: Board, paths: seq<Path>, pos: Pos, player: Player): (t: Tally)
    requires Scannable(board, paths)
    ensures t.points == 0 <==> t.included == []
    ensures forall q | q in t.included ::
              exists k :: 0 <= k < |paths| && Completes(board, paths[k], pos, player) && q in paths[k]
    ensures forall k | 0 <= k < |paths| && Completes(board, paths[k], pos, player) ::
              forall q | q in paths[k] :: q in t.included
  {
    if |paths| == 0 then Tally(0, [])
    else
      var path := paths[0];
      var rest := ScanThrough(board, paths[1..], pos, player);
      assert forall k | 1 <= k < |paths| :: paths[k] == paths[1..][k - 1];
      if pos !in path then rest
      else
        var included := if Hits(board, path, player) == Size then path else [];
        Tally(PathPoints(board, path, player) + rest.points, included + rest.included)
  }

  /** The indices from `from` on of the paths through `pos` that `player`
      owns. */
  function CompletedAt(board: Board, paths: seq<Path>, from: int, pos: Pos, player: Player): set<int>
    requires Scannable(board, paths)
  {
    set k | from <= k < |paths| && 0 <= k && Completes(board, paths[k], pos, player)
  }

  /** The indices from `from` on of the paths through `pos` whose squares
      are all `player`'s and special. */
  function SpecialAt(board: Board, paths: seq<Path>, from: int, pos: Pos, player: Player): set<int>
    requires Scannable(board, paths)
  {
    set k | from <= k < |paths| && 0 <= k && pos in paths[k] && OwnedSpecial(board, paths[k], player)
  }

  /** The indices in `from..n` that satisfy `p`. */
  function IndicesFrom(from: int, n: int, p: int -> bool): set<int> {
    set k | from <= k < n && p(k)
  }

  /** Starting one index earlier adds that index, if it qualifies. */
  lemma IndicesStep(from: int, n: int, p: int -> bool)
    requires from < n
    ensures |IndicesFrom(from, n, p)| == |IndicesFrom(from + 1, n, p)| + (if p(from) then 1 else 0)
  {
    assert IndicesFrom(from, n, p) == IndicesFrom(from + 1, n, p) + (if p(from) then {from} else {});
  }

  /** Starting one index earlier adds the path at that index, if it
      qualifies. */
  lemma CountsStep(board: Board, paths: seq<Path>, from: int, pos: Pos, player: Player)
    requires Scannable(board, paths) && 0 <= from < |paths|
    ensures |CompletedAt(board, paths, from, pos, player)| ==
            |CompletedAt(board, paths, from + 1, pos, player)|
            + (if Completes(board, paths[from], pos, player) then 1 else 0)
    ensures |SpecialAt(board, paths, from, pos, player)| ==
            |SpecialAt(board, paths, from + 1, pos, player)|
            + (if pos in paths[from] && OwnedSpecial(board, paths[from], player) then 1 else 0)
  {
    var completes := k => 0 <= k < |paths| && Completes(board, paths[k], pos, player);
    var special := k => 0 <= k < |paths| && pos in paths[k] && OwnedSpecial(board, paths[k], player);
    assert CompletedAt(board, paths, from, pos, player) == IndicesFrom(from, |paths|, completes);
    assert CompletedAt(board, paths, from + 1, pos, player) == IndicesFrom(from + 1, |paths|, completes);
    assert SpecialAt(board, paths, from, pos, player) == IndicesFrom(from, |paths|, special);
    assert SpecialAt(board, paths, from + 1, pos, player) == IndicesFrom(from + 1, |paths|, special);
    IndicesStep(from, |paths|, completes);
    IndicesStep(from, |paths|, special);
  }

  /** On a path through `pos`, the path's points are one for owning it plus
      one for its squares all being special. */
  lemma PathPointsSplit(board: Board, path: Path, pos: Pos, player: Player)
    requires OnBoard(board, path) && |path| == Size && pos in path
    ensures PathPoints(board, path, player) ==
            (if Completes(board, path, pos, player) then 1 else 0)
            + (if OwnedSpecial(board, path, player) then 1 else 0)
  {
  }

  lemma ScanThroughStep(board: Board, paths: seq<Path>, pos: Pos, player: Player)
    requires Scannable(board, paths) && |paths| > 0
    ensures Scannable(board, paths[1..])
    ensures ScanThrough(board, paths, pos, player).points ==
            (if pos in paths[0] then PathPoints(board, paths[0], player) else 0)
            + ScanThrough(board, paths[1..], pos, player).points
  {
    assert forall k | 1 <= k < |paths| :: paths[k] == paths[1..][k - 1];
  }

  /** The points of the full scan over `paths[from..]`: one for every path
      through `pos` that `player` owns, and one more for each of those whose
      squares are all special. */
  lemma {:induction false} ScanThroughPointsFrom(board: Board, paths: seq<Path>, from: nat, pos: Pos, player: Player)
    requires Scannable(board, paths) && from <= |paths|
    ensures Scannable(board, paths[from..])
    ensures ScanThrough(board, paths[from..], pos, player).points ==
            |CompletedAt(board, paths, from, pos, player)| + |SpecialAt(board, paths, from, pos, player)|
    decreases |paths| - from
  {
    var tail := paths[from..];
    assert forall k | 0 <= k < |tail| :: tail[k] == paths[from + k];
    if from == |paths| {
      assert CompletedAt(board, paths, from, pos, player) == {};
      assert SpecialAt(board, paths, from, pos, player) == {};
    } else {
      ScanThroughPointsFrom(board, paths, from + 1, pos, player);
      ScanThroughStep(board, tail, pos, player);
      assert tail[1..] == paths[from + 1..];
      CountsStep(board, paths, from, pos, player);
      if pos in tail[0] {
        PathPointsSplit(board, tail[0], pos, player);
      }
    }
  }

  /** The points of the full scan: one for every path through `pos` that
      `player` owns, and one more for each of those whose squares are all
      special. */
  lemma ScanThroughPoints(board: Board, paths: seq<Path>, pos: Pos, player: Player)
    requires Scannable(board, paths)
    ensures ScanThrough(board, paths, pos, player).points ==
            |CompletedAt(board, paths, 0, pos, player)| + |SpecialAt(board, paths, 0, pos, player)|
  {
    ScanThroughPointsFrom(board, paths, 0, pos, player);
    assert paths[0..] == paths;
  }

  /** Squares above level `z` are blank. */
  predicate BlankAbove(board: Board, z: int) {
    forall q | q in board && q.z > z :: board[q].value == Blank
  }

  /** The shortcut is sound: when nothing above the move's level is filled,
      a path whose top square lies above the move cannot be complete, so
      skipping it changes neither the points nor the highlighted squares. */
  lemma {:induction false} SkipIsSound(board: Board, paths: seq<Path>, pos: Pos, player: Player)
    requires Scannable(board, paths)
    requires BlankAbove(board, pos.z)
    ensures Scan(board, paths, pos, player) == ScanThrough(board, paths, pos, player)
  {
    if |paths| > 0 {
      var path := paths[0];
      SkipIsSound(board, paths[1..], pos, player);
      if pos.z < path[0].z && pos in path {
        assert board[path[0]].value == Blank;
        assert !Owned(board, path, player);
        assert SpecialHits(board, path, player) <= Hits(board, path, player) < Size;
      }
    }
  }
}
