/** The server side of the language-model opponent, reduced to the two texts
    it builds for the prompt: the board as eight '/'-separated rows of
    symbols, and the move history as numbered `from-to` pairs. */
module GeminiServer {
  import opened ChessTypes
  import opened ChessEngine
  import opened Strings
  import opened Squares

  // ---------------------------------------------------------------------
  // Board text

  /** Lower-case symbol of a piece type. */
  function PieceToSymbol(k: PieceType): (r: char)
    ensures IsLower(r)
    ensures SymbolToKind(r) == Some(k)
  {
    match k
    case King => 'k'
    case Queen => 'q'
    case Rook => 'r'
    case Bishop => 'b'
    case Knight => 'n'
    case Pawn => 'p'
  }

  predicate IsLower(c: char)
  {
    'a' <= c <= 'z'
  }

  predicate IsUpper(c: char)
  {
    'A' <= c <= 'Z'
  }

  function ToUpper(c: char): (u: char)
    requires IsLower(c)
    ensures IsUpper(u)
  {
    (c as int - 32) as char
  }

  function ToLower(c: char): (l: char)
    requires IsUpper(c)
    ensures IsLower(l)
    ensures ToUpper(l) == c
  {
    (c as int + 32) as char
  }

  /** One square: '1' when empty, else the symbol, upper case for white. */
  function SquareSymbol(s: Square): (c: char)
    ensures s.None? <==> c == '1'
    ensures s.Some? && s.value.color == White ==> IsUpper(c)
    ensures s.Some? && s.value.color == Black ==> IsLower(c)
  {
    match s
    case None => '1'
    case Some(p) =>
      if p.color == White then ToUpper(PieceToSymbol(p.kind)) else PieceToSymbol(p.kind)
  }

  /** A row: its square symbols side by side. */
  function RowString(row: seq<Square>): (r: string)
    ensures |r| == |row|
    ensures forall j :: 0 <= j < |row| ==> r[j] == SquareSymbol(row[j])
  {
    seq(|row|, j requires 0 <= j < |row| => SquareSymbol(row[j]))
  }

  /** The board text: the eight rows joined by '/'. */
  function BoardToFEN(b: Board): string
  {
    Join(seq(8, i requires 0 <= i < 8 => RowString(b[i])), "/")
  }

  /** What the board text keeps of a square: piece type and colour. */
  function Shape(s: Square): Option<(PieceType, Color)>
  {
    match s
    case None => None
    case Some(p) => Some((p.kind, p.color))
  }

  function SymbolToKind(c: char): Option<PieceType>
  {
    if c == 'k' then Some(King)
    else if c == 'q' then Some(Queen)
    else if c == 'r' then Some(Rook)
    else if c == 'b' then Some(Bishop)
    else if c == 'n' then Some(Knight)
    else if c == 'p' then Some(Pawn)
    else None
  }

  /** Reading one symbol back: upper case is white, lower case black. */
  function SymbolToSquare(c: char): Option<(PieceType, Color)>
  {
    if IsUpper(c) then
      match SymbolToKind(ToLower(c))
      case Some(k) => Some((k, White))
      case None => None
    else
      match SymbolToKind(c)
      case Some(k) => Some((k, Black))
      case None => None
  }

  lemma SymbolRoundTrip(s: Square)
    ensures SymbolToSquare(SquareSymbol(s)) == Shape(s)
  {
    match s
    case None =>
    case Some(p) =>
      if p.color == White {
        assert ToLower(SquareSymbol(s)) == PieceToSymbol(p.kind);
      }
  }

  /** Distinct (type, colour) pairs get distinct symbols. */
  lemma SquareSymbolInjective(s: Square, t: Square)
    requires SquareSymbol(s) == SquareSymbol(t)
    ensures Shape(s) == Shape(t)
  {
    SymbolRoundTrip(s);
    SymbolRoundTrip(t);
  }

  function DecodeRow(r: string): (row: seq<Option<(PieceType, Color)>>)
    ensures |row| == |r|
  {
    seq(|r|, j requires 0 <= j < |r| => SymbolToSquare(r[j]))
  }

  /** Reads board text back into a grid of (type, colour) squares. */
  function DecodeFEN(s: string): seq<seq<Option<(PieceType, Color)>>>
  {
    var rows := Split(s, '/');
    seq(|rows|, i requires 0 <= i < |rows| => DecodeRow(rows[i]))
  }

  function BoardShape(b: Board): seq<seq<Option<(PieceType, Color)>>>
  {
    seq(8, i requires 0 <= i < 8 => seq(8, j requires 0 <= j < 8 => Shape(b[i][j])))
  }

  lemma {:induction false} JoinRowsLength(parts: seq<string>)
    requires |parts| >= 1
    requires forall i :: 0 <= i < |parts| ==> |parts[i]| == 8
    ensures |Join(parts, "/")| == 9 * |parts| - 1
    decreases |parts|
  {
    if |parts| > 1 {
      JoinRowsLength(parts[1..]);
    }
  }

  /** The board text is 71 characters: eight rows of exactly eight symbols
      (no run-length compression of empty squares) and seven separators. */
  lemma BoardToFENLength(b: Board)
    ensures |BoardToFEN(b)| == 71
  {
    JoinRowsLength(seq(8, i requires 0 <= i < 8 => RowString(b[i])));
  }

  /** The board text determines every square's piece type and colour. */
  lemma BoardToFENRoundTrip(b: Board)
    ensures DecodeFEN(BoardToFEN(b)) == BoardShape(b)
  {
    var parts := seq(8, i requires 0 <= i < 8 => RowString(b[i]));
    forall i | 0 <= i < 8
      ensures '/' !in parts[i]
      ensures DecodeRow(parts[i]) == BoardShape(b)[i]
    {
      forall j | 0 <= j < 8
        ensures parts[i][j] != '/'
        ensures DecodeRow(parts[i])[j] == BoardShape(b)[i][j]
      {
        SymbolRoundTrip(b[i][j]);
      }
    }
    SplitJoin(parts, '/');
  }

  // ---------------------------------------------------------------------
  // History text

  /** The move-number token `n.` written before every white move. */
  function NumberToken(i: nat): string
  {
    NatToString(i / 2 + 1) + "."
  }

  /** Entry `i`: `from-to`, preceded by `n. ` at even indices. */
  function Entry(i: nat, m: Move): (e: string)
    requires MoveInBounds(m)
  {
    if i % 2 == 0 then NumberToken(i) + " " + MoveText(m.from, m.to)
    else MoveText(m.from, m.to)
  }

  function Entries(ms: seq<Move>): (es: seq<string>)
    requires HistoryInBounds(ms)
    ensures |es| == |ms|
  {
    seq(|ms|, i requires 0 <= i < |ms| => Entry(i, ms[i]))
  }

  /** The history text: the entries joined by single spaces. */
  function FormatMoveHistory(ms: seq<Move>): string
    requires HistoryInBounds(ms)
  {
    Join(Entries(ms), " ")
  }

  /** The space-free tokens of entry `i`. */
  function EntryTokens(i: nat, m: Move): seq<string>
    requires MoveInBounds(m)
  {
    if i % 2 == 0 then [NumberToken(i), MoveText(m.from, m.to)] else [MoveText(m.from, m.to)]
  }

  function TokensFrom(ms: seq<Move>, i: nat): seq<string>
    requires HistoryInBounds(ms)
    decreases |ms| - i
  {
    if i >= |ms| then [] else EntryTokens(i, ms[i]) + TokensFrom(ms, i + 1)
  }

  /** A token that is a `from-to` pair. */
  predicate IsMoveToken(t: string)
  {
    |t| == 5 && IsSquareText(t[..2]) && t[2] == '-' && IsSquareText(t[3..])
  }

  /** The (from, to) pairs named by the move tokens, in order. */
  function ReadMoves(tokens: seq<string>): seq<(Pos, Pos)>
  {
    if |tokens| == 0 then []
    else
      var t := tokens[0];
      (if IsMoveToken(t) then [(AlgebraicToPosition(t[..2]), AlgebraicToPosition(t[3..]))] else [])
      + ReadMoves(tokens[1..])
  }

  /** Reads the moves back out of a history text. */
  function ParseMoveHistory(s: string): seq<(Pos, Pos)>
  {
    ReadMoves(Split(s, ' '))
  }

  function Endpoints(ms: seq<Move>): (ps: seq<(Pos, Pos)>)
    ensures |ps| == |ms|
  {
    seq(|ms|, i requires 0 <= i < |ms| => (ms[i].from, ms[i].to))
  }

  lemma NumberTokenShape(i: nat)
    ensures !IsMoveToken(NumberToken(i))
    ensures ' ' !in NumberToken(i)
  {
    var n := NatToString(i / 2 + 1);
    assert NumberToken(i)[|n|] == '.';
    forall k | 0 <= k < |n|
      ensures NumberToken(i)[k] == n[k]
    {
    }
  }

  lemma MoveTextShape(m: Move)
    requires MoveInBounds(m)
    ensures IsMoveToken(MoveText(m.from, m.to))
    ensures ' ' !in MoveText(m.from, m.to)
    ensures AlgebraicToPosition(MoveText(m.from, m.to)[..2]) == m.from
    ensures AlgebraicToPosition(MoveText(m.from, m.to)[3..]) == m.to
  {
    SquareNameRoundTrip(m.from);
    SquareNameRoundTrip(m.to);
  }

  lemma {:induction false} ReadMovesAppend(a: seq<string>, b: seq<string>)
    ensures ReadMoves(a + b) == ReadMoves(a) + ReadMoves(b)
    decreases |a|
  {
    if |a| == 0 {
      assert a + b == b;
    } else {
      var ab := a + b;
      assert ab[0] == a[0];
      assert ab[1..] == a[1..] + b;
      ReadMovesAppend(a[1..], b);
      var t := a[0];
      var head := if IsMoveToken(t) then [(AlgebraicToPosition(t[..2]), AlgebraicToPosition(t[3..]))] else [];
      assert ReadMoves(a) == head + ReadMoves(a[1..]);
      assert ReadMoves(ab) == head + ReadMoves(ab[1..]);
    }
  }

  /** The tokens of one entry name exactly its move. */
  lemma ReadEntryTokens(i: nat, m: Move)
    requires MoveInBounds(m)
    ensures ReadMoves(EntryTokens(i, m)) == [(m.from, m.to)]
  {
    MoveTextShape(m);
    NumberTokenShape(i);
    var t := MoveText(m.from, m.to);
    assert ReadMoves([t]) == [(m.from, m.to)];
    if i % 2 == 0 {
      assert [NumberToken(i), t][1..] == [t];
    }
  }

  lemma {:induction false} ReadTokensFrom(ms: seq<Move>, i: nat)
    requires HistoryInBounds(ms) && i <= |ms|
    ensures ReadMoves(TokensFrom(ms, i)) == Endpoints(ms)[i..]
    decreases |ms| - i
  {
    if i < |ms| {
      var entry := EntryTokens(i, ms[i]);
      var rest := TokensFrom(ms, i + 1);
      assert TokensFrom(ms, i) == entry + rest;
      ReadTokensFrom(ms, i + 1);
      ReadMovesAppend(entry, rest);
      ReadEntryTokens(i, ms[i]);
      var ps := Endpoints(ms);
      assert ps[i] == (ms[i].from, ms[i].to);
      assert ps[i..] == [ps[i]] + ps[i + 1..];
    }
  }

  /** One entry on its own splits into its tokens. */
  lemma SplitEntry(i: nat, m: Move)
    requires MoveInBounds(m)
    ensures Split(Entry(i, m), ' ') == EntryTokens(i, m)
  {
    var t := MoveText(m.from, m.to);
    MoveTextShape(m);
    NumberTokenShape(i);
    SplitNoSeparator(t, ' ');
    if i % 2 == 0 {
      SplitAfterPiece(NumberToken(i), ' ', t);
    }
  }

  /** An entry followed by a space and more text splits into the entry's
      tokens followed by the pieces of the rest. */
  lemma SplitEntryThen(i: nat, m: Move, rest: string)
    requires MoveInBounds(m)
    ensures Split(Entry(i, m) + " " + rest, ' ') == EntryTokens(i, m) + Split(rest, ' ')
  {
    var t := MoveText(m.from, m.to);
    MoveTextShape(m);
    NumberTokenShape(i);
    SplitAfterPiece(t, ' ', rest);
    if i % 2 == 0 {
      assert Entry(i, m) + " " + rest == NumberToken(i) + [' '] + (t + [' '] + rest);
      SplitAfterPiece(NumberToken(i), ' ', t + [' '] + rest);
    }
  }

  /** Splitting the entries from `i` on spaces gives their tokens. */
  lemma {:induction false} SplitEntriesFrom(ms: seq<Move>, i: nat)
    requires HistoryInBounds(ms) && i < |ms|
    ensures Split(Join(Entries(ms)[i..], " "), ' ') == TokensFrom(ms, i)
    decreases |ms| - i
  {
    var es := Entries(ms);
    if i + 1 == |ms| {
      assert es[i..] == [Entry(i, ms[i])];
      SplitEntry(i, ms[i]);
      assert TokensFrom(ms, i + 1) == [];
    } else {
      var rest := Join(es[i + 1..], " ");
      assert es[i..][1..] == es[i + 1..];
      assert Join(es[i..], " ") == Entry(i, ms[i]) + " " + rest;
      SplitEntriesFrom(ms, i + 1);
      SplitEntryThen(i, ms[i], rest);
    }
  }

  /** How many tokens the entries before entry `j` split into: one move
      token each, plus a number token for every even index. */
  function EntryStart(j: nat): nat
  {
    j + (j + 1) / 2
  }

  /** Where each token of the entries from `i` sits: the move token of entry
      `j` and, at even `j`, its number token just before it. */
  lemma {:induction false} TokensFromLayout(ms: seq<Move>, i: nat)
    requires HistoryInBounds(ms) && i <= |ms|
    ensures |TokensFrom(ms, i)| == EntryStart(|ms|) - EntryStart(i)
    ensures forall j :: i <= j < |ms| ==>
      && TokensFrom(ms, i)[j + j / 2 + 1 - EntryStart(i)] == MoveText(ms[j].from, ms[j].to)
      && (j % 2 == 0 ==> TokensFrom(ms, i)[j + j / 2 - EntryStart(i)] == NumberToken(j))
    decreases |ms| - i
  {
    if i < |ms| {
      var entry := EntryTokens(i, ms[i]);
      var rest := TokensFrom(ms, i + 1);
      var ts := TokensFrom(ms, i);
      assert ts == entry + rest;
      assert |entry| == EntryStart(i + 1) - EntryStart(i);
      TokensFromLayout(ms, i + 1);
      forall j | i <= j < |ms|
        ensures ts[j + j / 2 + 1 - EntryStart(i)] == MoveText(ms[j].from, ms[j].to)
        ensures j % 2 == 0 ==> ts[j + j / 2 - EntryStart(i)] == NumberToken(j)
      {
        if j > i {
          assert ts[j + j / 2 + 1 - EntryStart(i)] == rest[j + j / 2 + 1 - EntryStart(i + 1)];
          if j % 2 == 0 {
            assert ts[j + j / 2 - EntryStart(i)] == rest[j + j / 2 - EntryStart(i + 1)];
          }
        }
      }
    }
  }

  /** The history text read as space-separated tokens: move `j` is the token
      at `j + j / 2 + 1`, and every white move (even `j`) is preceded by the
      number `j / 2 + 1` followed by a dot; nothing else is in the text. */
  lemma FormatMoveHistoryNumbering(ms: seq<Move>)
    requires HistoryInBounds(ms) && |ms| > 0
    ensures var ts := Split(FormatMoveHistory(ms), ' ');
      && |ts| == |ms| + (|ms| + 1) / 2
      && forall j :: 0 <= j < |ms| ==>
        && ts[j + j / 2 + 1] == MoveText(ms[j].from, ms[j].to)
        && (j % 2 == 0 ==> ts[j + j / 2] == NatToString(j / 2 + 1) + ".")
  {
    SplitEntriesFrom(ms, 0);
    assert Entries(ms)[0..] == Entries(ms);
    TokensFromLayout(ms, 0);
  }

  /** The history text is empty exactly when there is no move. */
  lemma FormatMoveHistoryEmpty(ms: seq<Move>)
    requires HistoryInBounds(ms)
    ensures FormatMoveHistory(ms) == "" <==> |ms| == 0
  {
    if |ms| > 0 {
      SplitEntriesFrom(ms, 0);
      assert Split(FormatMoveHistory(ms), ' ') == TokensFrom(ms, 0);
      MoveTextShape(ms[0]);
      NumberTokenShape(0);
      assert TokensFrom(ms, 0)[0] == NumberToken(0);
    }
  }

  /** Every move's squares can be read back, in order, from the history
      text: the number tokens are skipped and each `from-to` pair is read
      with the client's square reader. */
  lemma FormatMoveHistoryRoundTrip(ms: seq<Move>)
    requires HistoryInBounds(ms)
    ensures ParseMoveHistory(FormatMoveHistory(ms)) == Endpoints(ms)
  {
    if |ms| == 0 {
      assert Split("", ' ') == [""];
    } else {
      SplitEntriesFrom(ms, 0);
      assert Entries(ms)[0..] == Entries(ms);
    }
    ReadTokensFrom(ms, 0);
  }
}
