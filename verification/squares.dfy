/** Algebraic square names: file letter 'a' + column, then rank digit 8 - row.
    The move list, the server's history string and the client's move parser
    all use this one naming. */
module Squares {
  import opened ChessTypes
  import opened ChessEngine
  import opened Strings

  predicate IsFileChar(c: char)
  {
    'a' <= c <= 'h'
  }

  predicate IsRankChar(c: char)
  {
    '1' <= c <= '8'
  }

  /** The text `[a-h][1-8]`. */
  predicate IsSquareText(s: string)
  {
    |s| == 2 && IsFileChar(s[0]) && IsRankChar(s[1])
  }

  /** `String.fromCharCode(97 + y)` for a board column. */
  function FileChar(y: int): (c: char)
    requires 0 <= y < 8
    ensures IsFileChar(c)
  {
    (97 + y) as char
  }

  /** The name of an on-board square: `a8` for (0, 0), `h1` for (7, 7). */
  function SquareName(p: Pos): (s: string)
    requires IsValidPosition(p)
    ensures IsSquareText(s)
    ensures s[0] as int - 97 == p.y && DigitValue(s[1]) == 8 - p.x
  {
    [FileChar(p.y)] + NatToString(8 - p.x)
  }

  /** The client's inverse: column = code of the first character - 97,
      row = 8 - the digit in the second. */
  function AlgebraicToPosition(s: string): (p: Pos)
    requires |s| >= 2 && IsDigit(s[1])
    ensures p.y == s[0] as int - 97 && p.x == 8 - DigitValue(s[1])
    ensures IsSquareText(s) ==> IsValidPosition(p)
  {
    Pos(8 - DigitValue(s[1]), s[0] as int - 97)
  }

  /** Files a..h are columns 0..7 and ranks 1..8 are rows 7..0. */
  lemma AlgebraicToPositionMapsFilesAndRanks(s: string)
    requires IsSquareText(s)
    ensures 0 <= AlgebraicToPosition(s).y == s[0] as int - 'a' as int < 8
    ensures AlgebraicToPosition(s).x == 7 - (s[1] as int - '1' as int)
  {
  }

  /** Naming a square and reading the name back gives the square. */
  lemma SquareNameRoundTrip(p: Pos)
    requires IsValidPosition(p)
    ensures AlgebraicToPosition(SquareName(p)) == p
  {
  }

  /** Every square text names exactly the square it is read as. */
  lemma AlgebraicRoundTrip(s: string)
    requires IsSquareText(s)
    ensures SquareName(AlgebraicToPosition(s)) == s
  {
    var p := AlgebraicToPosition(s);
    assert SquareName(p) == [s[0]] + [s[1]];
    assert [s[0]] + [s[1]] == s;
  }

  /** Different squares have different names. */
  lemma SquareNameInjective(p: Pos, q: Pos)
    requires IsValidPosition(p) && IsValidPosition(q)
    requires SquareName(p) == SquareName(q)
    ensures p == q
  {
    SquareNameRoundTrip(p);
    SquareNameRoundTrip(q);
  }

  /** `from-to` text, as the server writes each history entry and as the
      client expects to find a move in a reply. */
  function MoveText(from: Pos, to: Pos): (s: string)
    requires IsValidPosition(from) && IsValidPosition(to)
    ensures |s| == 5 && s[2] == '-'
    ensures s[..2] == SquareName(from) && s[3..] == SquareName(to)
  {
    SquareName(from) + "-" + SquareName(to)
  }
}
