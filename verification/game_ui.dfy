/** The status badge: which of checkmate, stalemate, check or normal play
    to announce, and the message that goes with it. */
module GameUI {
  import opened ChessTypes
  import opened ChessEngine

  datatype GameStatus = GameStatus(status: string, message: string)

  /** The colour as the store spells it (lower case). */
  function ColorName(c: Color): string
  {
    if c == White then "white" else "black"
  }

  /** The winner as the badge spells it (capitalised). */
  function WinnerName(c: Color): string
  {
    if c == White then "White" else "Black"
  }

  /** Checkmate first (the side not to move wins), then stalemate, then
      check, else normal play. */
  function GetGameStatus(currentPlayer: Color, isCheck: bool, isCheckmate: bool, isStalemate: bool): (g: GameStatus)
    ensures isCheckmate ==> g.status == "Checkmate" && g.message == WinnerName(Opponent(currentPlayer)) + " wins!"
    ensures !isCheckmate && isStalemate ==> g == GameStatus("Stalemate", "Draw game")
    ensures g.status == "Check" <==> !isCheckmate && !isStalemate && isCheck
    ensures g.status == "Playing" <==> !isCheckmate && !isStalemate && !isCheck
    ensures g.status == "Playing" ==> g.message == ColorName(currentPlayer) + "'s turn"
    ensures g.status == "Check" ==> g.message == ColorName(currentPlayer) + " king in check"
  {
    if isCheckmate then
      GameStatus("Checkmate", (if currentPlayer == White then "Black" else "White") + " wins!")
    else if isStalemate then GameStatus("Stalemate", "Draw game")
    else if isCheck then GameStatus("Check", ColorName(currentPlayer) + " king in check")
    else GameStatus("Playing", ColorName(currentPlayer) + "'s turn")
  }

  /** With the flags computed from a position, as the store computes them,
      the badge classifies the position: checkmate and stalemate exactly
      when the engine says so, check when in check with a legal move, and
      normal play when not in check with a legal move. */
  lemma StatusOfPosition(b: Board, c: Color)
    ensures var g := GetGameStatus(c, IsInCheck(b, c), IsCheckmate(b, c), IsStalemate(b, c));
      (g.status == "Checkmate" <==> IsCheckmate(b, c))
      && (g.status == "Stalemate" <==> IsStalemate(b, c))
      && (g.status == "Check" <==> IsInCheck(b, c) && |GetAllValidMoves(b, c)| > 0)
      && (g.status == "Playing" <==> !IsInCheck(b, c) && |GetAllValidMoves(b, c)| > 0)
  {
    ClassificationExclusive(b, c);
  }
}
