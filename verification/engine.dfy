/**
 The game: board, scores, move counter, first player and status messages;
 the properties derived from the move counter; `winner`; the `move`
 command with its two `ValueError`s; and `reset`. Every command returns
 the new game together with the signals it sends, in the order it sends
 them.
 */
module Engine {
  import opened Wrappers
  import opened Geometry
  import opened Squares
  import opened Paths
  import opened Scoring

  datatype Scores = Scores(red: nat, blue: nat) {

    function Get(p: Player): nat {
      if p == Red then red else blue
    }

    /** `scores[p] += n`. */
    function Add(p: Player, n: nat): (s: Scores)
      ensures s.Get(p) == Get(p) + n
      ensures s.Get(OtherPlayer(p)) == Get(OtherPlayer(p))
    {
      if p == Red then this.(red := red + n) else this.(blue := blue + n)
    }
  }

  /** A status message, by kind, with the arguments of its format. */
  datatype Status =
    | OnlyUp
    | Tie
    | Wins(winner: Player)
    | PointsEarned(points: nat, plural: string)

  /** The signals the game sends. */
  datatype Event =
    | LevelChanged
    | ScoreChanged(highlighted: seq<Pos>)
    | BoardChanged
    | PlayerChanged
    | StatusChanged

  datatype Game = Game(board: Board, scores: Scores, moveCount: nat, firstPlayer: Player, status: seq<Status>)

  /** The game after a command, and the signals the command sent. */
  datatype Update = Update(game: Game, events: seq<Event>)

  /** `ValueError("Wrong level")`, `ValueError("Square taken")`, and the
      `KeyError` the board lookup raises for a position off the board. */
  datatype MoveError = WrongLevel | SquareTaken | NoSuchSquare

  /** The board holds exactly the 27 squares of the cube, as `__init__`
      builds it; no command adds or removes squares. */
  ghost predicate FullBoard(board: Board) {
    forall p :: p in board <==> InBounds(p)
  }

  // ---------------------------------------------------------------------
  // Derived properties
  // ---------------------------------------------------------------------

  /** `done`: all 27 moves have been made. The current level is then one
      past the top level, so no square lies on it. */
  function Done(g: Game): (done: bool)
    ensures done ==> CurrentLevel(g) == Size
  {
    g.moveCount == TotalSquares
  }

  /** `current_level`: the level that `move_count` falls in. */
  function CurrentLevel(g: Game): (level: nat)
    ensures SquaresPerLevel * level <= g.moveCount < SquaresPerLevel * (level + 1)
  {
    g.moveCount / SquaresPerLevel
  }

  /** `current_player`: the first player on even counts, the other on odd. */
  function CurrentPlayer(g: Game): (p: Player)
    ensures p == g.firstPlayer <==> g.moveCount % 2 == 0
  {
    OtherPlayerInvolution(g.firstPlayer);
    if g.moveCount % 2 == 1 then OtherPlayer(g.firstPlayer) else g.firstPlayer
  }

  /** `current_move_special`. */
  function CurrentMoveSpecial(g: Game): bool {
    g.moveCount % SquaresPerLevel in SpecialSquares
  }

  /** `winner`: the player with the strictly higher score, `None` on a tie. */
  function Winner(g: Game): (w: Option<Player>)
    ensures w.None? <==> g.scores.red == g.scores.blue
    ensures w.Some? ==> g.scores.Get(w.value) > g.scores.Get(OtherPlayer(w.value))
  {
    var difference := g.scores.red - g.scores.blue;
    if difference == 0 then None
    else if difference > 0 then Some(Red)
    else Some(Blue)
  }

  /** Players take turns: each move hands the turn to the other player. */
  lemma TurnsAlternate(g: Game)
    ensures CurrentPlayer(g.(moveCount := g.moveCount + 1)) == OtherPlayer(CurrentPlayer(g))
  {
    OtherPlayerInvolution(g.firstPlayer);
  }

  // ---------------------------------------------------------------------
  // Scoring a move
  // ---------------------------------------------------------------------

  lemma TableScannable(board: Board)
    requires FullBoard(board)
    ensures Scannable(board, WinningPaths())
  {
    WinningPathsListed();
    forall k | 0 <= k < |WinningPaths()|
      ensures |WinningPaths()[k]| == Size && OnBoard(board, WinningPaths()[k])
    {
      var p := WinningPaths()[k];
      assert Entry(p, k);
      forall q | q in p
        ensures q in board
      {
        InCells(q, p);
      }
    }
  }

  function Plural(points: nat): (s: string)
    ensures s == "s" <==> points != 1
    ensures s == "" <==> points == 1
  {
    if points != 1 then "s" else ""
  }

  /** The scan of the winning paths for a move at `pos` by the current player. */
  function MoveTally(g: Game, pos: Pos): Tally
    requires FullBoard(g.board)
  {
    TableScannable(g.board);
    Scan(g.board, WinningPaths(), pos, CurrentPlayer(g))
  }

  /** `_handle_tictactoe`: when the move completed paths, add their points
      to the mover's score, send SCORE CHANGED with the squares to
      highlight, and report the points. */
  function HandleTicTacToe(g: Game, pos: Pos): (u: Update)
    requires FullBoard(g.board)
    ensures u.game.board == g.board && u.game.moveCount == g.moveCount
    ensures u.game.firstPlayer == g.firstPlayer
    ensures u.game.scores.Get(OtherPlayer(CurrentPlayer(g))) == g.scores.Get(OtherPlayer(CurrentPlayer(g)))
    ensures u.game.scores.Get(CurrentPlayer(g)) == g.scores.Get(CurrentPlayer(g)) + MoveTally(g, pos).points
  {
    var player := CurrentPlayer(g);
    var tally := MoveTally(g, pos);
    if tally.points > 0 then
      Update(
        g.(scores := g.scores.Add(player, tally.points),
           status := g.status + [PointsEarned(tally.points, Plural(tally.points))]),
        [ScoreChanged(tally.included)])
    else
      Update(g, [])
  }

  // ---------------------------------------------------------------------
  // Commands
  // ---------------------------------------------------------------------

  /** The square a successful move leaves at `pos`. */
  function Claimed(g: Game): Square {
    Square(CurrentPlayer(g), CurrentMoveSpecial(g))
  }

  /** The game once the current player's mark is on `pos`, before scoring. */
  function Marked(g: Game, pos: Pos): Game {
    g.(status := [], board := g.board[pos := Claimed(g)])
  }

  /** The squares a move at `pos` highlights: those of every path it completed. */
  function Highlighted(g: Game, pos: Pos): seq<Pos>
    requires FullBoard(g.board) && InBounds(pos)
  {
    MoveTally(Marked(g, pos), pos).included
  }

  /** `Game.move`: the current player takes the square at `pos`. */
  function Move(g: Game, pos: Pos): (r: Result<Update, MoveError>)
    requires FullBoard(g.board)
    ensures r == Failure(WrongLevel) <==> pos.z != CurrentLevel(g)
    ensures r == Failure(NoSuchSquare) <==> pos.z == CurrentLevel(g) && !InBounds(pos)
    ensures r == Failure(SquareTaken) <==>
              pos.z == CurrentLevel(g) && InBounds(pos) && g.board[pos].value != Blank
    ensures r.Success? ==>
              var after := r.value.game;
              && after.board.Keys == g.board.Keys
              && after.board[pos].value == CurrentPlayer(g)
              && (after.board[pos].special <==> g.moveCount % SquaresPerLevel in SpecialSquares)
              && (forall q | q in g.board && q != pos :: after.board[q] == g.board[q])
              && after.moveCount == g.moveCount + 1
              && after.firstPlayer == g.firstPlayer
              && after.scores.Get(OtherPlayer(CurrentPlayer(g))) == g.scores.Get(OtherPlayer(CurrentPlayer(g)))
              && after.scores.Get(CurrentPlayer(g)) >= g.scores.Get(CurrentPlayer(g))
  {
    if pos.z != CurrentLevel(g) then Failure(WrongLevel)
    else if pos !in g.board then Failure(NoSuchSquare)
    else if g.board[pos].value != Blank then Failure(SquareTaken)
    else
      var scored := HandleTicTacToe(Marked(g, pos), pos);
      var counted := scored.game.(moveCount := scored.game.moveCount + 1);
      Success(Update(
        counted.(status := counted.status + Closing(counted)),
        [BoardChanged] + scored.events + [PlayerChanged] + LevelSignal(counted) + [StatusChanged]))
  }

  /** LEVEL CHANGED once the move count reaches a multiple of nine. */
  function LevelSignal(counted: Game): seq<Event> {
    if counted.moveCount % SquaresPerLevel == 0 then [LevelChanged] else []
  }

  /** The status messages the end of a move appends once the count has
      been advanced: "The only way is up!" on a new level while the game
      goes on, then the result when the game is done. */
  function Closing(counted: Game): seq<Status> {
    var newLevel := counted.moveCount % SquaresPerLevel == 0;
    (if 0 < counted.moveCount && !Done(counted) && newLevel then [OnlyUp] else [])
    + (if Done(counted) then [match Winner(counted) case None => Tie case Some(w) => Wins(w)] else [])
  }

  /** The points a successful move earned its player. */
  function Earned(g: Game, pos: Pos): int
    requires FullBoard(g.board) && Move(g, pos).Success?
  {
    Move(g, pos).value.game.scores.Get(CurrentPlayer(g)) - g.scores.Get(CurrentPlayer(g))
  }

  /** The signals a successful move sends, in order: BOARD; SCORE with the
      squares to highlight exactly when the mover scored; PLAYER; LEVEL
      exactly when the move filled the level; STATUS. */
  lemma MoveSignals(g: Game, pos: Pos)
    requires FullBoard(g.board) && Move(g, pos).Success?
    ensures InBounds(pos)
    ensures var after := Move(g, pos).value.game;
            Move(g, pos).value.events ==
              [BoardChanged]
              + (if Earned(g, pos) > 0 then [ScoreChanged(Highlighted(g, pos))] else [])
              + [PlayerChanged]
              + (if CurrentLevel(after) > CurrentLevel(g) then [LevelChanged] else [])
              + [StatusChanged]
    ensures Earned(g, pos) > 0 <==> Highlighted(g, pos) != []
  {
  }

  /** The status after a successful move: the points earned (with a plural
      "s" unless exactly one), "The only way is up!" when the move filled a
      level and more remain, and the result once the board is full. */
  lemma MoveStatus(g: Game, pos: Pos)
    requires FullBoard(g.board) && Move(g, pos).Success?
    ensures var after := Move(g, pos).value.game;
            var earned := Earned(g, pos);
            after.status ==
              (if earned > 0 then [PointsEarned(earned, Plural(earned))] else [])
              + (if CurrentLevel(after) > CurrentLevel(g) && !Done(after) then [OnlyUp] else [])
              + (if Done(after) then [if Winner(after).None? then Tie else Wins(Winner(after).value)] else [])
  {
    var scored := HandleTicTacToe(Marked(g, pos), pos);
    var counted := scored.game.(moveCount := scored.game.moveCount + 1);
    var after := Move(g, pos).value.game;
    assert after == counted.(status := counted.status + Closing(counted));
    var earned := Earned(g, pos);
    assert earned == MoveTally(Marked(g, pos), pos).points;
    assert counted.status == if earned > 0 then [PointsEarned(earned, Plural(earned))] else [];
    assert Closing(counted) == Closing(after);
  }

  /** A move earns what the scan of its marked board finds. */
  lemma MoveEarned(g: Game, pos: Pos)
    requires FullBoard(g.board) && Move(g, pos).Success?
    ensures InBounds(pos) && FullBoard(Marked(g, pos).board)
    ensures Earned(g, pos) == MoveTally(Marked(g, pos), pos).points
  {
  }

  /** The signals `reset` sends, in order. */
  const ResetEvents: seq<Event> :=
    [LevelChanged, ScoreChanged([]), BoardChanged, PlayerChanged, StatusChanged]

  /** `Game.reset`: every square blank and not special, scores zero, no
      moves, no status, and `first` to move. */
  function Reset(g: Game, first: Player): (u: Update)
    ensures u.game.board.Keys == g.board.Keys
    ensures forall q | q in u.game.board :: u.game.board[q] == ResetSquare
    ensures u.game.scores.Get(Red) == 0 && u.game.scores.Get(Blue) == 0
    ensures u.game.moveCount == 0 && u.game.status == [] && u.game.firstPlayer == first
    ensures CurrentPlayer(u.game) == first && CurrentLevel(u.game) == 0 && !Done(u.game)
    ensures u.events == ResetEvents
  {
    Update(
      Game(map q | q in g.board :: ResetSquare, Scores(0, 0), 0, first, []),
      ResetEvents)
  }

  /** `Game(first_player)`: a board of 27 squares, then `reset`. */
  function NewGame(first: Player): (u: Update)
    ensures FullBoard(u.game.board)
  {
    forall p | InBounds(p) ensures p in Cube() {
      CubeMembers(p);
    }
    forall p | p in Cube() ensures InBounds(p) {
      CubeMembers(p);
    }
    Reset(Game(map q | q in Cube() :: ResetSquare, Scores(0, 0), 0, first, []), first)
  }

  /** Resetting twice is resetting once. */
  lemma ResetIdempotent(g: Game, first: Player)
    ensures Reset(Reset(g, first).game, first) == Reset(g, first)
  {
  }
}
