/**
 * The values the board is made of: sides, piece names, move types, pieces,
 * history records, and the constant step vectors used to generate moves.
 */
module Pieces {
  import opened Squares

  datatype Option<T> = None | Some(value: T)

  /** WHITE is 0 and BLACK is 1 in the engine; White occupies lines 0 and 1. */
  datatype Player = White | Black

  /** The enemy side, `1 - player` in the engine. */
  function Opponent(p: Player): (q: Player)
    ensures q != p
  {
    if p == White then Black else White
  }

  datatype Name = Pawn | Knight | Bishop | Rook | Queen | King

  /** The back-line names, indexed by column. */
  const NAMES: seq<Name> := [Rook, Knight, Bishop, Queen, King, Bishop, Knight, Rook]

  /** The move-type tags. Only DEFAULT and MOVE_TWO_SPACES are ever produced;
      the others exist as tags without behaviour. */
  datatype MoveType =
    | Default
    | MoveTwoSpaces
    | EnPassantCapture
    | Promotion
    | CastlingShort
    | CastlingLong

  /** A piece record; `legalMoves` maps destination indices to their move type. */
  datatype Piece = Piece(player: Player, name: Name, moveCount: int, legalMoves: map<int, MoveType>)

  /** One entry of the move history: enough to put the board back. */
  datatype MoveRecord = MoveRecord(from: int, to: int, moveType: MoveType, capturedPiece: Option<Piece>)

  /** The 64 squares, indexed by `8 * col + line`; `None` is an empty square. */
  type Position = seq<Option<Piece>>

  const UP: Offset := Offset(0, 1)
  const UP_RIGHT: Offset := Offset(1, 1)
  const RIGHT: Offset := Offset(1, 0)
  const DOWN_RIGHT: Offset := Offset(1, -1)
  const DOWN: Offset := Offset(0, -1)
  const DOWN_LEFT: Offset := Offset(-1, -1)
  const LEFT: Offset := Offset(-1, 0)
  const UP_LEFT: Offset := Offset(-1, 1)

  const UP_DIAGONAL_SPACES: seq<Offset> := [UP_LEFT, UP_RIGHT]
  const DOWN_DIAGONAL_SPACES: seq<Offset> := [DOWN_LEFT, DOWN_RIGHT]
  const KNIGHT_SPACES: seq<Offset> :=
    [Offset(-1, -2), Offset(-2, -1), Offset(-2, 1), Offset(-1, 2),
     Offset(1, 2), Offset(2, 1), Offset(2, -1), Offset(1, -2)]
  const BISHOP_SPACES: seq<Offset> := [UP_LEFT, UP_RIGHT, DOWN_LEFT, DOWN_RIGHT]
  const ROOK_SPACES: seq<Offset> := [UP, RIGHT, DOWN, LEFT]
  const ROYALTY_SPACES: seq<Offset> := BISHOP_SPACES + ROOK_SPACES

  /** The direction a pawn of `p` advances in: White moves up, Black down. */
  function PawnAdvance(p: Player): (d: Offset)
    ensures d.y == 0 && d.x == (if p == White then 1 else -1)
  {
    if p == White then UP else DOWN
  }

  /** The two forward diagonals of a pawn of `p`; they are also the squares
      from which an enemy pawn attacks a king of `p`. */
  function PawnDiagonals(p: Player): (ds: seq<Offset>)
    ensures ds == [Offset(-1, PawnAdvance(p).x), Offset(1, PawnAdvance(p).x)]
  {
    if p == White then UP_DIAGONAL_SPACES else DOWN_DIAGONAL_SPACES
  }

  /** No step vector used by the engine is the null offset. */
  predicate NonNull(spaces: seq<Offset>)
  {
    forall k :: 0 <= k < |spaces| ==> spaces[k] != Offset(0, 0)
  }

  /** A ray direction: one step to one of the eight neighbouring squares. */
  predicate Unit(d: Offset)
  {
    -1 <= d.y <= 1 && -1 <= d.x <= 1 && d != Offset(0, 0)
  }

  predicate Directions(spaces: seq<Offset>)
  {
    forall k :: 0 <= k < |spaces| ==> Unit(spaces[k])
  }

  /** The step vectors are what their names say: the bishop's are the four
      diagonals, the rook's the four orthogonals, the queen's and king's all
      eight, and the knight's eight leaps are distinct and never null. */
  lemma SpacesShape()
    ensures Directions(BISHOP_SPACES) && Directions(ROOK_SPACES) && Directions(ROYALTY_SPACES)
    ensures forall k :: 0 <= k < 4 ==> !Orthogonal(BISHOP_SPACES[k]) && Orthogonal(ROOK_SPACES[k])
    ensures |ROYALTY_SPACES| == 8 && |KNIGHT_SPACES| == 8 && NonNull(KNIGHT_SPACES)
    ensures forall j, k :: 0 <= j < k < 8 ==> ROYALTY_SPACES[j] != ROYALTY_SPACES[k] && KNIGHT_SPACES[j] != KNIGHT_SPACES[k]
    ensures Directions(PawnDiagonals(White)) && Directions(PawnDiagonals(Black))
    ensures NonNull(ROYALTY_SPACES) && NonNull(PawnDiagonals(White)) && NonNull(PawnDiagonals(Black))
  {
  }

  /** A ray direction goes straight along a file or a line. */
  predicate Orthogonal(d: Offset)
  {
    d.y == 0 || d.x == 0
  }
}
