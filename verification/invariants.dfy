/**
 What every reachable game satisfies: `reset` establishes it, every
 successful `move` keeps it. From it follow the facts the rest of the
 program relies on: the move counter counts the filled squares, nothing is
 filled above the current level, a finished game has a full board, an
 unfinished one always has a legal move, and the scan's shortcut never
 misses a completed path.
 */
module Invariants {
  import opened Geometry
  import opened Squares
  import opened Paths
  import opened Scoring
  import opened Engine

  function Filled(board: Board): set<Pos> {
    set q | q in board && board[q].value != Blank
  }

  function LevelFilled(board: Board, z: int): set<Pos> {
    set q | q in board && q.z == z && board[q].value != Blank
  }

  /** How many squares of level `z` are filled after `moveCount` moves:
      the levels below the current one are full, the current one holds
      the moves made on it, the ones above are empty. */
  function LevelQuota(moveCount: nat, z: int): nat {
    if z < moveCount / SquaresPerLevel then SquaresPerLevel
    else if z == moveCount / SquaresPerLevel then moveCount % SquaresPerLevel
    else 0
  }

  function LevelSpecial(board: Board, z: int): set<Pos> {
    set q | q in board && q.z == z && board[q].special
  }

  /** How many of the first `n` moves on a level make a special square. */
  function SpecialBelow(n: int): nat {
    |set k | k in SpecialSquares && k < n|
  }

  ghost predicate Valid(g: Game) {
    && FullBoard(g.board)
    && g.moveCount <= TotalSquares
    && |Filled(g.board)| == g.moveCount
    && BlankAbove(g.board, CurrentLevel(g))
    && (forall q | q in g.board && g.board[q].value == Blank :: !g.board[q].special)
    && (forall z | 0 <= z < Size :: |LevelFilled(g.board, z)| == LevelQuota(g.moveCount, z))
    && (forall z | 0 <= z < Size :: |LevelSpecial(g.board, z)| == SpecialBelow(LevelQuota(g.moveCount, z)))
  }

  /** The squares the current player may take. */
  function LegalMoves(g: Game): set<Pos> {
    set q | q in g.board && q.z == CurrentLevel(g) && g.board[q].value == Blank
  }

  // ---------------------------------------------------------------------
  // Establishing and keeping the invariant
  // ---------------------------------------------------------------------

  /** `reset` leaves a valid game. */
  lemma ResetEstablishesValid(g: Game, first: Player)
    requires FullBoard(g.board)
    ensures Valid(Reset(g, first).game)
  {
    var b := Reset(g, first).game.board;
    assert Filled(b) == {};
    forall z | 0 <= z < Size
      ensures |LevelFilled(b, z)| == LevelQuota(0, z)
      ensures |LevelSpecial(b, z)| == SpecialBelow(LevelQuota(0, z))
    {
      assert LevelFilled(b, z) == {};
      assert LevelSpecial(b, z) == {};
      assert (set k | k in SpecialSquares && k < 0) == {};
    }
  }

  /** One more move changes the quota of the level it is made on, by one. */
  lemma QuotaStep(moveCount: nat, z: int)
    requires moveCount < TotalSquares
    ensures LevelQuota(moveCount + 1, z) ==
            LevelQuota(moveCount, z) + (if z == moveCount / SquaresPerLevel then 1 else 0)
  {
    var level := moveCount / SquaresPerLevel;
    var offset := moveCount % SquaresPerLevel;
    assert moveCount == SquaresPerLevel * level + offset;
    if offset + 1 < SquaresPerLevel {
      assert moveCount + 1 == SquaresPerLevel * level + (offset + 1);
      assert (moveCount + 1) / SquaresPerLevel == level;
      assert (moveCount + 1) % SquaresPerLevel == offset + 1;
    } else {
      assert moveCount + 1 == SquaresPerLevel * (level + 1);
      assert (moveCount + 1) / SquaresPerLevel == level + 1;
      assert (moveCount + 1) % SquaresPerLevel == 0;
    }
  }

  /** Filling one blank square adds it to the filled squares. */
  lemma FillOne(b: Board, b': Board, pos: Pos)
    requires pos in b && b[pos].value == Blank
    requires b'.Keys == b.Keys && b'[pos].value != Blank
    requires forall q | q in b && q != pos :: b'[q] == b[q]
    ensures |Filled(b')| == |Filled(b)| + 1
  {
    assert Filled(b') == Filled(b) + {pos};
    assert pos !in Filled(b);
  }

  /** Filling one blank square adds it to the filled squares of its level
      and leaves the other levels alone. */
  lemma FillOneLevel(b: Board, b': Board, pos: Pos, z: int)
    requires pos in b && b[pos].value == Blank
    requires b'.Keys == b.Keys && b'[pos].value != Blank
    requires forall q | q in b && q != pos :: b'[q] == b[q]
    ensures |LevelFilled(b', z)| == |LevelFilled(b, z)| + (if z == pos.z then 1 else 0)
  {
    if z == pos.z {
      assert LevelFilled(b', z) == LevelFilled(b, z) + {pos};
      assert pos !in LevelFilled(b, z);
    } else {
      assert LevelFilled(b', z) == LevelFilled(b, z);
    }
  }

  /** One more move on a level adds a special square exactly when its
      offset is one of `SPECIAL_SQUARES`. */
  lemma SpecialBelowStep(offset: int)
    ensures SpecialBelow(offset + 1) ==
            SpecialBelow(offset) + (if offset in SpecialSquares then 1 else 0)
  {
    var before := set k | k in SpecialSquares && k < offset;
    assert (set k | k in SpecialSquares && k < offset + 1) ==
           before + (if offset in SpecialSquares then {offset} else {});
    assert offset !in before;
  }

  /** Filling a blank, non-special square adds it to the special squares
      of its level exactly when it becomes special. */
  lemma SpecialOneLevel(b: Board, b': Board, pos: Pos, z: int)
    requires pos in b && !b[pos].special
    requires b'.Keys == b.Keys
    requires forall q | q in b && q != pos :: b'[q] == b[q]
    ensures |LevelSpecial(b', z)| ==
            |LevelSpecial(b, z)| + (if z == pos.z && b'[pos].special then 1 else 0)
  {
    if z == pos.z && b'[pos].special {
      assert LevelSpecial(b', z) == LevelSpecial(b, z) + {pos};
      assert pos !in LevelSpecial(b, z);
    } else {
      assert LevelSpecial(b', z) == LevelSpecial(b, z);
    }
  }

  /** The special squares of each level keep pace with its quota. */
  lemma StepKeepsSpecials(g: Game, pos: Pos, after: Game, z: int)
    requires Valid(g) && 0 <= z < Size
    requires InBounds(pos) && pos.z == CurrentLevel(g) && g.board[pos].value == Blank
    requires after.board.Keys == g.board.Keys
    requires after.board[pos].special <==> g.moveCount % SquaresPerLevel in SpecialSquares
    requires forall q | q in g.board && q != pos :: after.board[q] == g.board[q]
    requires after.moveCount == g.moveCount + 1
    ensures |LevelSpecial(after.board, z)| == SpecialBelow(LevelQuota(after.moveCount, z))
  {
    assert g.moveCount < TotalSquares;
    QuotaStep(g.moveCount, z);
    SpecialOneLevel(g.board, after.board, pos, z);
    if z == pos.z {
      SpecialBelowStep(g.moveCount % SquaresPerLevel);
    }
  }

  /** Taking one blank square of the current level, and counting the move,
      keeps the invariant. */
  lemma StepPreservesValid(g: Game, pos: Pos, after: Game)
    requires Valid(g)
    requires InBounds(pos) && pos.z == CurrentLevel(g) && g.board[pos].value == Blank
    requires after.board.Keys == g.board.Keys && after.board[pos].value != Blank
    requires after.board[pos].special <==> g.moveCount % SquaresPerLevel in SpecialSquares
    requires forall q | q in g.board && q != pos :: after.board[q] == g.board[q]
    requires after.moveCount == g.moveCount + 1
    ensures Valid(after)
  {
    assert g.moveCount < TotalSquares;
    FillOne(g.board, after.board, pos);
    forall z | 0 <= z < Size
      ensures |LevelFilled(after.board, z)| == LevelQuota(after.moveCount, z)
    {
      QuotaStep(g.moveCount, z);
      FillOneLevel(g.board, after.board, pos, z);
    }
    forall z | 0 <= z < Size
      ensures |LevelSpecial(after.board, z)| == SpecialBelow(LevelQuota(after.moveCount, z))
    {
      StepKeepsSpecials(g, pos, after, z);
    }
    assert CurrentLevel(after) >= CurrentLevel(g);
  }

  /** A successful move on a valid game leaves a valid game. */
  lemma MovePreservesValid(g: Game, pos: Pos)
    requires Valid(g) && Move(g, pos).Success?
    ensures Valid(Move(g, pos).value.game)
  {
    assert InBounds(pos);
    StepPreservesValid(g, pos, Move(g, pos).value.game);
  }

  /** A session: each attempted move in turn, a rejected one leaving the
      game as it was. */
  function Play(g: Game, moves: seq<Pos>): (r: Game)
    requires FullBoard(g.board)
    ensures FullBoard(r.board)
    ensures r.firstPlayer == g.firstPlayer
    ensures g.moveCount <= r.moveCount <= g.moveCount + |moves|
    decreases |moves|
  {
    if moves == [] then g
    else
      match Move(g, moves[0])
      case Success(u) => Play(u.game, moves[1..])
      case Failure(_) => Play(g, moves[1..])
  }

  lemma {:induction false} PlayPreservesValid(g: Game, moves: seq<Pos>)
    requires Valid(g)
    ensures Valid(Play(g, moves))
    decreases |moves|
  {
    if moves != [] {
      match Move(g, moves[0])
      case Success(u) =>
        MovePreservesValid(g, moves[0]);
        PlayPreservesValid(u.game, moves[1..]);
      case Failure(_) =>
        PlayPreservesValid(g, moves[1..]);
    }
  }

  /** Every game reached from a new game by any sequence of attempted
      moves is valid. */
  lemma ReachableValid(first: Player, moves: seq<Pos>)
    ensures Valid(Play(NewGame(first).game, moves))
  {
    ResetEstablishesValid(Game(map q | q in Cube() :: ResetSquare, Scores(0, 0), 0, first, []), first);
    PlayPreservesValid(NewGame(first).game, moves);
  }

  // ---------------------------------------------------------------------
  // Consequences
  // ---------------------------------------------------------------------

  lemma FullBoardIsCube(board: Board)
    requires FullBoard(board)
    ensures board.Keys == Cube()
  {
    forall p | p in Cube() ensures p in board { CubeMembers(p); }
    forall p | p in board ensures p in Cube() { CubeMembers(p); }
  }

  /** A subset as large as its superset is the superset. */
  lemma SubsetFull<T>(a: set<T>, b: set<T>)
    requires a <= b && |a| == |b|
    ensures a == b
  {
    assert |b - a| == |b| - |a|;
  }

  /** When the game is done every square has been taken. */
  lemma DoneMeansFull(g: Game)
    requires Valid(g) && Done(g)
    ensures forall q | q in g.board :: g.board[q].value != Blank
  {
    FullBoardIsCube(g.board);
    CubeCard();
    SubsetFull(Filled(g.board), g.board.Keys);
    forall q | q in g.board ensures g.board[q].value != Blank {
      assert q in Filled(g.board);
    }
  }

  /** A move succeeds exactly on a legal square; that is, a blank square of
      the current level. */
  lemma MoveSucceedsIffLegal(g: Game, pos: Pos)
    requires FullBoard(g.board)
    ensures Move(g, pos).Success? <==> pos in LegalMoves(g)
  {
    if pos in LegalMoves(g) {
      assert InBounds(pos);
    }
  }

  /** The current level always has `SQUARES_PER_LEVEL - move_count % SQUARES_PER_LEVEL`
      blank squares until the game is done, when no move is possible: the
      game never gets stuck. */
  lemma LegalMovesCount(g: Game)
    requires Valid(g)
    ensures |LegalMoves(g)| ==
            if Done(g) then 0 else SquaresPerLevel - g.moveCount % SquaresPerLevel
    ensures !Done(g) ==> |LegalMoves(g)| > 0
  {
    var level := CurrentLevel(g);
    if Done(g) {
      assert LegalMoves(g) == {};
    } else {
      FullBoardIsCube(g.board);
      LevelCard(level);
      var filled := LevelFilled(g.board, level);
      assert filled <= LevelSet(level);
      assert LegalMoves(g) == LevelSet(level) - filled;
      assert |filled| == g.moveCount % SquaresPerLevel;
    }
  }

  /** A done game refuses every move. */
  lemma DoneRefusesMoves(g: Game, pos: Pos)
    requires Valid(g) && Done(g)
    ensures Move(g, pos).Failure?
  {
    LegalMovesCount(g);
    MoveSucceedsIffLegal(g, pos);
  }

  /** With nothing filled above the move's level, the scan highlights
      exactly the squares of the winning paths through the move that the
      player owns. */
  lemma ScanExact(board: Board, pos: Pos, player: Player)
    requires FullBoard(board) && BlankAbove(board, pos.z)
    ensures Scannable(board, WinningPaths())
    ensures var included := Scan(board, WinningPaths(), pos, player).included;
            && (forall q | q in included ::
                  exists k :: 0 <= k < |WinningPaths()|
                              && Completes(board, WinningPaths()[k], pos, player)
                              && q in WinningPaths()[k])
            && (forall k | 0 <= k < |WinningPaths()| && Completes(board, WinningPaths()[k], pos, player) ::
                  forall q | q in WinningPaths()[k] :: q in included)
  {
    TableScannable(board);
    SkipIsSound(board, WinningPaths(), pos, player);
  }

  /** A successful move leaves the board of `Marked`: scoring does not
      touch the board. */
  lemma MoveBoard(g: Game, pos: Pos)
    requires FullBoard(g.board) && Move(g, pos).Success?
    ensures InBounds(pos) && g.board[pos].value == Blank
    ensures Move(g, pos).value.game.board == Marked(g, pos).board
  {
    var after := Move(g, pos).value.game.board;
    var marked := Marked(g, pos).board;
    assert after.Keys == marked.Keys;
    forall q | q in marked
      ensures after[q] == marked[q]
    {
    }
  }

  /** On a valid game the squares a move highlights are exactly the squares
      of the winning paths through the move that the mover now owns, and
      none of those paths was complete before the move. */
  lemma MoveHighlights(g: Game, pos: Pos)
    requires Valid(g) && Move(g, pos).Success?
    ensures var after := Move(g, pos).value.game;
            && Scannable(after.board, WinningPaths())
            && (forall q | q in Highlighted(g, pos) ::
                  exists k :: 0 <= k < |WinningPaths()|
                              && Completes(after.board, WinningPaths()[k], pos, CurrentPlayer(g))
                              && q in WinningPaths()[k])
            && (forall k | 0 <= k < |WinningPaths()| && Completes(after.board, WinningPaths()[k], pos, CurrentPlayer(g)) ::
                  && !Owned(g.board, WinningPaths()[k], CurrentPlayer(g))
                  && forall q | q in WinningPaths()[k] :: q in Highlighted(g, pos))
  {
    MoveBoard(g, pos);
    var board := Marked(g, pos).board;
    assert FullBoard(board);
    assert BlankAbove(board, pos.z);
    ScanExact(board, pos, CurrentPlayer(g));
    TableScannable(g.board);
  }

  /** The paths a move completes are exactly the winning paths through it
      that the mover now owns: a path the mover did not own before and owns
      afterwards runs through the move, so skipping the paths that miss it
      loses nothing. */
  lemma MoveCompletesExactly(g: Game, pos: Pos)
    requires Valid(g) && Move(g, pos).Success?
    ensures var after := Move(g, pos).value.game;
            && Scannable(g.board, WinningPaths())
            && Scannable(after.board, WinningPaths())
            && forall k | 0 <= k < |WinningPaths()| ::
                 (Owned(after.board, WinningPaths()[k], CurrentPlayer(g))
                  && !Owned(g.board, WinningPaths()[k], CurrentPlayer(g)))
                 <==> Completes(after.board, WinningPaths()[k], pos, CurrentPlayer(g))
  {
    MoveBoard(g, pos);
    TableScannable(g.board);
    TableScannable(Marked(g, pos).board);
    MoveHighlights(g, pos);
  }

  /** On a valid game a move earns one point for every winning path through
      it that the mover now owns, and one more for each of those whose
      three squares are all special. */
  lemma MovePoints(g: Game, pos: Pos)
    requires Valid(g) && Move(g, pos).Success?
    ensures var after := Move(g, pos).value.game;
            && Scannable(after.board, WinningPaths())
            && Earned(g, pos) ==
               |CompletedAt(after.board, WinningPaths(), 0, pos, CurrentPlayer(g))|
               + |SpecialAt(after.board, WinningPaths(), 0, pos, CurrentPlayer(g))|
  {
    MoveBoard(g, pos);
    MoveEarned(g, pos);
    var board := Marked(g, pos).board;
    assert BlankAbove(board, pos.z);
    TableScannable(board);
    SkipIsSound(board, WinningPaths(), pos, CurrentPlayer(g));
    ScanThroughPoints(board, WinningPaths(), pos, CurrentPlayer(g));
  }

  /** `current_move_special` marks four of the nine moves of every level:
      once a level is full it holds exactly four special squares. */
  lemma FullLevelsHaveFourSpecials(g: Game, z: int)
    requires Valid(g) && 0 <= z < Size && z < CurrentLevel(g)
    ensures |LevelSpecial(g.board, z)| == 4
  {
    assert (set k | k in SpecialSquares && k < SquaresPerLevel) == {1, 2, 6, 7};
  }
}
