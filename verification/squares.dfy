/**
 Squares and players: the square values `BLANK`, `RED`, `BLUE`, a `Square`
 with its special flag, `Square.reset`, `Square.__repr__`, and
 `Game.other_player`.
 */
module Squares {
  import opened Wrappers

  /** A square's value: `BLANK` ('_'), `RED` ('X') or `BLUE` ('O'). */
  datatype Mark = Blank | Red | Blue

  /** A value that can own a square and make a move. */
  type Player = m: Mark | m != Blank witness Red

  function MarkChar(m: Mark): char {
    match m
    case Blank => '_'
    case Red => 'X'
    case Blue => 'O'
  }

  /** The marker `__repr__` appends for a special square. */
  const SpecialChar: char := '*'

  datatype Square = Square(value: Mark, special: bool)

  /** `Square.reset`: blank and not special. */
  const ResetSquare: Square := Square(Blank, false)

  /** `Square.__repr__`: the value's character followed by '*' when special,
      a space otherwise. */
  function Repr(s: Square): (r: string)
    ensures |r| == 2
  {
    [MarkChar(s.value)] + (if s.special then [SpecialChar] else [' '])
  }

  /** Reads a square back from its two-character rendering. */
  function ParseSquare(r: string): (s: Option<Square>)
    ensures s.Some? ==> |r| == 2
  {
    if |r| != 2 then None
    else
      var value :=
        if r[0] == '_' then Some(Blank)
        else if r[0] == 'X' then Some(Red)
        else if r[0] == 'O' then Some(Blue)
        else None;
      if value.None? then None
      else if r[1] == SpecialChar then Some(Square(value.value, true))
      else if r[1] == ' ' then Some(Square(value.value, false))
      else None
  }

  /** The rendering loses nothing: it parses back to the same square, and
      only renderings of squares parse. */
  lemma ReprRoundTrip(s: Square, r: string)
    ensures ParseSquare(Repr(s)) == Some(s)
    ensures ParseSquare(r) == Some(s) ==> r == Repr(s)
  {
  }

  /** Two squares render alike only if they are the same square. */
  lemma ReprInjective(s: Square, t: Square)
    ensures Repr(s) == Repr(t) ==> s == t
  {
    ReprRoundTrip(s, Repr(t));
  }

  /** `Game.other_player`: RED for anything that is not RED. */
  function OtherPlayer(m: Mark): (r: Player)
    ensures m == Red <==> r == Blue
  {
    if m == Red then Blue else Red
  }

  /** On the two players, `other_player` swaps them and undoes itself. */
  lemma OtherPlayerInvolution(p: Player)
    ensures OtherPlayer(p) != p
    ensures OtherPlayer(OtherPlayer(p)) == p
    ensures p == Red ==> OtherPlayer(p) == Blue
    ensures p == Blue ==> OtherPlayer(p) == Red
  {
  }
}
