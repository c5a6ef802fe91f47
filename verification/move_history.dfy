/** The move list panel: short notation for one move, and the pairing of the
    history into numbered white/black rows. */
module MoveHistory {
  import opened ChessTypes
  import opened ChessEngine
  import opened Strings
  import opened Squares

  /** The upper-cased first letter of the piece type's name. Knight and king
      both start with 'k', so both render as 'K'. */
  function PieceLetter(k: PieceType): char
  {
    match k
    case Pawn => 'P'
    case Rook => 'R'
    case Knight => 'K'
    case Bishop => 'B'
    case Queen => 'Q'
    case King => 'K'
  }

  /** Notation of a move: the piece letter except for pawns, then for a
      capture the pawn's file (pawns only) and 'x', then the destination. */
  function FormatMove(m: Move): (s: string)
    requires MoveInBounds(m)
    ensures 2 <= |s| <= 4
    ensures s[|s| - 2..] == SquareName(m.to)
  {
    var letter := if m.piece.kind != Pawn then [PieceLetter(m.piece.kind)] else [];
    var capture :=
      if m.captured.Some? then (if m.piece.kind == Pawn then [SquareName(m.from)[0]] else []) + ['x']
      else [];
    letter + capture + SquareName(m.to)
  }

  /** 'x' appears exactly for captures. */
  lemma FormatMoveMarksCaptures(m: Move)
    requires MoveInBounds(m)
    ensures 'x' in FormatMove(m) <==> m.captured.Some?
  {
    var s := FormatMove(m);
    var name := SquareName(m.to);
    if m.captured.None? {
      assert forall i :: 0 <= i < |s| ==> s[i] != 'x' by {
        if m.piece.kind == Pawn {
          assert s == name;
        } else {
          assert s == [PieceLetter(m.piece.kind)] + name;
        }
      }
    } else {
      assert s[|s| - 3] == 'x';
    }
  }

  /** A quiet pawn move is just the destination name; a pawn capture starts
      with the file it leaves from; other pieces start with their letter. */
  lemma FormatMoveShapes(m: Move)
    requires MoveInBounds(m)
    ensures m.piece.kind == Pawn && m.captured.None? ==> FormatMove(m) == SquareName(m.to)
    ensures m.piece.kind == Pawn && m.captured.Some? ==>
      FormatMove(m) == [SquareName(m.from)[0], 'x'] + SquareName(m.to)
    ensures m.piece.kind != Pawn ==> FormatMove(m)[0] == PieceLetter(m.piece.kind)
    ensures m.piece.kind != Pawn ==>
      FormatMove(m) == [PieceLetter(m.piece.kind)] + (if m.captured.Some? then "x" else "") + SquareName(m.to)
  {
  }

  /** The destination can always be read back from the notation. */
  lemma FormatMoveTarget(m: Move)
    requires MoveInBounds(m)
    ensures var s := FormatMove(m);
      IsSquareText(s[|s| - 2..]) && AlgebraicToPosition(s[|s| - 2..]) == m.to
  {
    SquareNameRoundTrip(m.to);
  }

  /** The notation is not injective: a knight move and a king move between
      the same squares render the same. */
  lemma FormatMoveNotInjective()
    ensures exists m1: Move, m2: Move ::
              MoveInBounds(m1) && MoveInBounds(m2) && m1 != m2 && FormatMove(m1) == FormatMove(m2)
  {
    var k := Move(Pos(7, 6), Pos(6, 6), Piece(Knight, White, false), None);
    var K := Move(Pos(7, 6), Pos(6, 6), Piece(King, White, false), None);
    assert FormatMove(k) == FormatMove(K);
  }

  /** One numbered row of the panel. */
  datatype MoveRow = MoveRow(number: nat, white: Move, black: Option<Move>)

  /** Rows from history index `i` on (i stepping by 2, as the source loop). */
  function GroupFrom(h: seq<Move>, i: nat): (rows: seq<MoveRow>)
    requires i % 2 == 0
    ensures i < |h| ==> |rows| == (|h| - i + 1) / 2
    ensures i >= |h| ==> rows == []
    ensures forall k :: 0 <= k < |rows| ==>
      rows[k].number == i / 2 + k + 1
      && rows[k].white == h[i + 2 * k]
      && (rows[k].black.Some? <==> i + 2 * k + 1 < |h|)
      && (rows[k].black.Some? ==> rows[k].black.value == h[i + 2 * k + 1])
    decreases |h| - i
  {
    if i >= |h| then []
    else
      var black := if i + 1 < |h| then Some(h[i + 1]) else None;
      [MoveRow(i / 2 + 1, h[i], black)] + GroupFrom(h, i + 2)
  }

  /** The panel rows: ceil(n / 2) rows, row k numbered k + 1, holding
      h[2k] for white and h[2k + 1] for black when it exists. */
  function GroupMoves(h: seq<Move>): (rows: seq<MoveRow>)
    ensures |rows| == (|h| + 1) / 2
    ensures forall k :: 0 <= k < |rows| ==>
      rows[k].number == k + 1
      && rows[k].white == h[2 * k]
      && (rows[k].black.Some? <==> 2 * k + 1 < |h|)
      && (rows[k].black.Some? ==> rows[k].black.value == h[2 * k + 1])
  {
    GroupFrom(h, 0)
  }

  /** Reading the rows back in order, white then black, gives the history. */
  function Ungroup(rows: seq<MoveRow>): seq<Move>
  {
    if |rows| == 0 then []
    else [rows[0].white] + (if rows[0].black.Some? then [rows[0].black.value] else []) + Ungroup(rows[1..])
  }

  lemma {:induction false} UngroupFrom(h: seq<Move>, i: nat)
    requires i % 2 == 0 && i <= |h|
    ensures Ungroup(GroupFrom(h, i)) == h[i..]
    decreases |h| - i
  {
    if i < |h| {
      if i + 1 < |h| {
        UngroupFrom(h, i + 2);
        assert h[i..] == [h[i], h[i + 1]] + h[i + 2..];
      } else {
        assert h[i..] == [h[i]];
      }
    }
  }

  /** Grouping loses and reorders nothing. */
  lemma GroupMovesRoundTrip(h: seq<Move>)
    ensures Ungroup(GroupMoves(h)) == h
  {
    UngroupFrom(h, 0);
  }
}
