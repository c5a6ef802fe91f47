/** Value types shared by the rules engine, the search and the game store:
    pieces, board coordinates, moves and the 8x8 board itself. */
module ChessTypes {

  /** A possibly-missing value (the source's `T | null` / optional field). */
  datatype Option<T> = None | Some(value: T)

  datatype Color = White | Black

  datatype PieceType = Pawn | Rook | Knight | Bishop | Queen | King

  /** A piece. The source's `id` string is not modelled; `hasMoved` is kept
      because move application writes it, although no rule reads it. */
  datatype Piece = Piece(kind: PieceType, color: Color, hasMoved: bool)

  /** A board coordinate: `x` is the row (0 = black's back rank), `y` the column.
      Unbounded, because move generation builds off-board candidates before
      filtering them. */
  datatype Pos = Pos(x: int, y: int)

  /** A proposed move; `captured` is the occupant of `to` when the move was built. */
  datatype Move = Move(from: Pos, to: Pos, piece: Piece, captured: Option<Piece>)

  type Square = Option<Piece>

  predicate IsGrid(g: seq<seq<Square>>)
  {
    |g| == 8 && forall i :: 0 <= i < 8 ==> |g[i]| == 8
  }

  /** The board: eight rows of eight squares, row-major. */
  type Board = g: seq<seq<Square>> | IsGrid(g)
    witness seq(8, _ => seq(8, _ => None))

  function Opponent(c: Color): (o: Color)
    ensures o != c
  {
    if c == White then Black else White
  }
}
