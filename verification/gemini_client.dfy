/** The client side of the language-model opponent, reduced to its pure part:
    finding a `from-to` square pair in the reply text and turning it into a
    move on the current board. */
module GeminiClient {
  import opened ChessTypes
  import opened ChessEngine
  import opened Strings
  import opened Squares

  /** The pattern `[a-h][1-8]-[a-h][1-8]` occurs at index `i`. */
  predicate MatchesAt(s: string, i: int)
  {
    0 <= i && i + 5 <= |s| && IsSquareText(s[i..i + 2]) && s[i + 2] == '-' && IsSquareText(s[i + 3..i + 5])
  }

  /** The leftmost match at or after `i`, as a regular-expression search
      finds it. */
  function FindMoveFrom(s: string, i: nat): (r: Option<nat>)
    ensures r.None? <==> forall j :: i <= j ==> !MatchesAt(s, j)
    ensures r.Some? ==> i <= r.value && MatchesAt(s, r.value)
    ensures r.Some? ==> forall j :: i <= j < r.value ==> !MatchesAt(s, j)
    decreases |s| - i
  {
    if i + 5 > |s| then None
    else if MatchesAt(s, i) then Some(i)
    else FindMoveFrom(s, i + 1)
  }

  function FindMove(s: string): (r: Option<nat>)
    ensures r.None? <==> forall j :: 0 <= j ==> !MatchesAt(s, j)
    ensures r.Some? ==> MatchesAt(s, r.value) && forall j :: 0 <= j < r.value ==> !MatchesAt(s, j)
  {
    FindMoveFrom(s, 0)
  }

  /** The move named by the leftmost `from-to` pair, provided its from-square
      holds a piece of `color`; the captured piece is whatever stands on the
      to-square. No legality check is made. */
  function ParseAlgebraicMove(text: string, b: Board, color: Color): (r: Option<Move>)
    ensures FindMove(text).None? ==> r.None?
    ensures FindMove(text).Some? ==>
      var i := FindMove(text).value;
      var from := AlgebraicToPosition(text[i..i + 2]);
      var to := AlgebraicToPosition(text[i + 3..i + 5]);
      IsValidPosition(from) && IsValidPosition(to)
      && (r.Some? <==> At(b, from).Some? && At(b, from).value.color == color)
      && (r.Some? ==> r.value == Move(from, to, At(b, from).value, At(b, to)))
  {
    match FindMove(text)
    case None => None
    case Some(i) =>
      var from := AlgebraicToPosition(text[i..i + 2]);
      var to := AlgebraicToPosition(text[i + 3..i + 5]);
      var piece := At(b, from);
      if piece.Some? && piece.value.color == color then Some(Move(from, to, piece.value, At(b, to)))
      else None
  }

  /** Text without file letters cannot start a match. */
  predicate NoFileLetters(s: string)
  {
    forall i :: 0 <= i < |s| ==> !IsFileChar(s[i])
  }

  /** A reply that names a move as `from-to` after text free of file letters
      is parsed back into that move, with the board's pieces filled in. */
  lemma ParseMoveText(prefix: string, from: Pos, to: Pos, suffix: string, b: Board, color: Color)
    requires NoFileLetters(prefix)
    requires IsValidPosition(from) && IsValidPosition(to)
    requires At(b, from).Some? && At(b, from).value.color == color
    ensures ParseAlgebraicMove(prefix + MoveText(from, to) + suffix, b, color)
         == Some(Move(from, to, At(b, from).value, At(b, to)))
  {
    var text := prefix + MoveText(from, to) + suffix;
    var k := |prefix|;
    assert text[k..k + 5] == MoveText(from, to);
    assert text[k..k + 2] == SquareName(from);
    assert text[k + 3..k + 5] == SquareName(to);
    assert MatchesAt(text, k);
    forall j | 0 <= j < k
      ensures !MatchesAt(text, j)
    {
      assert text[j] == prefix[j];
      assert text[j..j + 2][0] == text[j];
    }
    SquareNameRoundTrip(from);
    SquareNameRoundTrip(to);
  }

  /** A reply whose first `from-to` pair names a from-square that is empty
      or holds the other colour gives no move. */
  lemma ParseRejects(text: string, b: Board, color: Color)
    requires FindMove(text).Some?
    requires var i := FindMove(text).value;
      var p := At(b, AlgebraicToPosition(text[i..i + 2]));
      p.None? || p.value.color != color
    ensures ParseAlgebraicMove(text, b, color).None?
  {
  }
}
