/** The rules engine: board setup, pseudo-legal move generation per piece
    type, attack and check detection, move application, the self-check
    filter that turns pseudo-legal moves into legal ones, checkmate,
    stalemate and a small material count. Every operation is a pure
    function of an immutable board. */
module ChessEngine {
  import opened ChessTypes

  // ---------------------------------------------------------------------
  // Coordinates

  predicate IsValidPosition(p: Pos)
  {
    0 <= p.x < 8 && 0 <= p.y < 8
  }

  function At(b: Board, p: Pos): Square
    requires IsValidPosition(p)
  {
    b[p.x][p.y]
  }

  /** Row-major index of a square, and its inverse: the order in which the
      source's nested row/column loops visit the board. */
  function Index(p: Pos): int
  {
    8 * p.x + p.y
  }

  function SquareAt(k: int): Pos
  {
    Pos(k / 8, k % 8)
  }

  lemma SquareAtIndex(p: Pos)
    requires IsValidPosition(p)
    ensures SquareAt(Index(p)) == p
    ensures 0 <= Index(p) < 64
  {
  }

  lemma IndexSquareAt(k: int)
    requires 0 <= k < 64
    ensures IsValidPosition(SquareAt(k))
    ensures Index(SquareAt(k)) == k
  {
  }

  /** A square a piece of colour `c` may move to: on the board, and empty or
      held by the other colour. */
  predicate Enterable(b: Board, p: Pos, c: Color)
  {
    IsValidPosition(p) && (At(b, p).None? || At(b, p).value.color != c)
  }

  predicate HoldsOpponent(b: Board, p: Pos, c: Color)
  {
    IsValidPosition(p) && At(b, p).Some? && At(b, p).value.color != c
  }

  predicate IsEmptySquare(b: Board, p: Pos)
  {
    IsValidPosition(p) && At(b, p).None?
  }

  // ---------------------------------------------------------------------
  // Board setup

  const PieceOrder: seq<PieceType> := [Rook, Knight, Bishop, Queen, King, Bishop, Knight, Rook]

  function HomeSquare(x: int, y: int): Square
    requires 0 <= y < 8
  {
    if x == 0 then Some(Piece(PieceOrder[y], Black, false))
    else if x == 1 then Some(Piece(Pawn, Black, false))
    else if x == 6 then Some(Piece(Pawn, White, false))
    else if x == 7 then Some(Piece(PieceOrder[y], White, false))
    else None
  }

  /** The starting position: black on rows 0-1, white on rows 6-7. */
  function InitializeBoard(): (b: Board)
    ensures forall y :: 0 <= y < 8 ==>
      && b[0][y] == Some(Piece(PieceOrder[y], Black, false))
      && b[1][y] == Some(Piece(Pawn, Black, false))
      && b[6][y] == Some(Piece(Pawn, White, false))
      && b[7][y] == Some(Piece(PieceOrder[y], White, false))
    ensures forall x, y :: 2 <= x < 6 && 0 <= y < 8 ==> b[x][y].None?
  {
    var rows := seq(8, x requires 0 <= x < 8 => seq(8, y requires 0 <= y < 8 => HomeSquare(x, y)));
    assert forall x :: 0 <= x < 8 ==> |rows[x]| == 8;
    rows
  }

  // ---------------------------------------------------------------------
  // Pseudo-legal move generation

  const RookDirections: seq<(int, int)> := [(-1, 0), (1, 0), (0, -1), (0, 1)]
  const BishopDirections: seq<(int, int)> := [(-1, -1), (-1, 1), (1, -1), (1, 1)]
  const KnightJumps: seq<(int, int)> :=
    [(-2, -1), (-2, 1), (-1, -2), (-1, 2), (1, -2), (1, 2), (2, -1), (2, 1)]
  const KingSteps: seq<(int, int)> :=
    [(-1, -1), (-1, 0), (-1, 1), (0, -1), (0, 1), (1, -1), (1, 0), (1, 1)]

  function Offset(p: Pos, d: (int, int)): Pos
  {
    Pos(p.x + d.0, p.y + d.1)
  }

  /** The square `n` steps from `pos` along direction `d`. */
  function RayPos(pos: Pos, d: (int, int), n: int): Pos
  {
    Pos(pos.x + d.0 * n, pos.y + d.1 * n)
  }

  /** Why a ray ends after step `n - 1`: the step count ran out, the next
      square is off the board, or it holds a piece of the mover's colour. */
  predicate RayBlocked(b: Board, c: Color, pos: Pos, d: (int, int), n: int)
  {
    var q := RayPos(pos, d, n);
    n >= 8 || !IsValidPosition(q) || (At(b, q).Some? && At(b, q).value.color == c)
  }

  /** One sliding ray, steps `i` to 7: empty squares are taken and the slide
      continues; an occupied square ends it, and is taken only when it holds
      the other colour. */
  function Ray(b: Board, c: Color, pos: Pos, d: (int, int), i: int): (r: seq<Pos>)
    requires 1 <= i <= 8
    decreases 8 - i
    ensures i + |r| <= 8
    ensures forall k :: 0 <= k < |r| ==> r[k] == RayPos(pos, d, i + k)
    ensures forall k :: 0 <= k < |r| ==> Enterable(b, r[k], c)
    ensures forall k :: 0 <= k < |r| - 1 ==> IsEmptySquare(b, r[k])
    ensures (|r| > 0 && HoldsOpponent(b, r[|r| - 1], c)) || RayBlocked(b, c, pos, d, i + |r|)
  {
    if i == 8 then []
    else
      var p := RayPos(pos, d, i);
      if !IsValidPosition(p) then []
      else if At(b, p).None? then
        var rest := Ray(b, c, pos, d, i + 1);
        assert forall k :: 1 <= k <= |rest| ==> ([p] + rest)[k] == rest[k - 1];
        [p] + rest
      else if At(b, p).value.color != c then [p]
      else []
  }

  /** Step `n` of the ray along `d` (counting from step `i`) is a square the
      mover may enter, and every step before it is empty. */
  predicate RayReaches(b: Board, c: Color, pos: Pos, d: (int, int), i: int, n: int)
  {
    && i <= n < 8
    && Enterable(b, RayPos(pos, d, n), c)
    && forall m :: i <= m < n ==> IsEmptySquare(b, RayPos(pos, d, m))
  }

  /** A ray that stops at step `i` reaches step `i` only, and only when
      that square holds the other colour. */
  lemma RayReachesAtStop(b: Board, c: Color, pos: Pos, d: (int, int), i: int, n: int)
    requires 1 <= i < 8 && !IsEmptySquare(b, RayPos(pos, d, i))
    ensures RayReaches(b, c, pos, d, i, n) <==> n == i && Enterable(b, RayPos(pos, d, i), c)
  {
  }

  /** Past an empty step `i`, the ray reaches what it reaches from `i + 1`,
      and step `i` itself. */
  lemma RayReachesPastEmpty(b: Board, c: Color, pos: Pos, d: (int, int), i: int, n: int)
    requires 1 <= i < 8 && IsEmptySquare(b, RayPos(pos, d, i))
    ensures RayReaches(b, c, pos, d, i, n) <==> n == i || RayReaches(b, c, pos, d, i + 1, n)
  {
  }

  /** A ray holds exactly the squares it reaches. */
  lemma {:induction false} RayMembers(b: Board, c: Color, pos: Pos, d: (int, int), i: int, t: Pos)
    requires 1 <= i <= 8
    ensures t in Ray(b, c, pos, d, i) <==> exists n :: RayReaches(b, c, pos, d, i, n) && t == RayPos(pos, d, n)
    decreases 8 - i
  {
    if i < 8 {
      var p := RayPos(pos, d, i);
      if !IsEmptySquare(b, p) {
        assert Ray(b, c, pos, d, i) == if Enterable(b, p, c) then [p] else [];
        forall n { RayReachesAtStop(b, c, pos, d, i, n); }
        if t in Ray(b, c, pos, d, i) {
          assert RayReaches(b, c, pos, d, i, i);
        }
      } else {
        RayMembers(b, c, pos, d, i + 1, t);
        assert Ray(b, c, pos, d, i) == [p] + Ray(b, c, pos, d, i + 1);
        forall n { RayReachesPastEmpty(b, c, pos, d, i, n); }
        if t == p {
          assert RayReaches(b, c, pos, d, i, i);
        }
      }
    }
  }

  /** Reference description of sliding moves: `t` is reached along one of
      the directions `dirs` over empty squares only. */
  ghost predicate SlidesTo(b: Board, c: Color, pos: Pos, dirs: seq<(int, int)>, t: Pos)
  {
    exists d, n :: d in dirs && RayReaches(b, c, pos, d, 1, n) && t == RayPos(pos, d, n)
  }

  /** The rays along each direction in turn, concatenated in direction order. */
  function Slide(b: Board, c: Color, pos: Pos, dirs: seq<(int, int)>): (r: seq<Pos>)
    ensures forall t :: t in r ==> Enterable(b, t, c)
  {
    if |dirs| == 0 then []
    else Ray(b, c, pos, dirs[0], 1) + Slide(b, c, pos, dirs[1..])
  }

  /** A slide holds exactly the squares reached along its directions. */
  lemma {:induction false} SlideMembers(b: Board, c: Color, pos: Pos, dirs: seq<(int, int)>, t: Pos)
    ensures t in Slide(b, c, pos, dirs) <==> SlidesTo(b, c, pos, dirs, t)
    decreases |dirs|
  {
    if |dirs| > 0 {
      RayMembers(b, c, pos, dirs[0], 1, t);
      SlideMembers(b, c, pos, dirs[1..], t);
      if SlidesTo(b, c, pos, dirs, t) {
        var d, n :| d in dirs && RayReaches(b, c, pos, d, 1, n) && t == RayPos(pos, d, n);
        if d != dirs[0] {
          assert d in dirs[1..];
        }
      }
      if SlidesTo(b, c, pos, dirs[1..], t) {
        var d, n :| d in dirs[1..] && RayReaches(b, c, pos, d, 1, n) && t == RayPos(pos, d, n);
        assert d in dirs;
      }
      if t in Ray(b, c, pos, dirs[0], 1) {
        assert dirs[0] in dirs;
      }
    }
  }

  /** Single-step (leaping) moves: each offset in order, kept when the target
      is on the board and not held by the mover's colour. */
  function Steps(b: Board, c: Color, pos: Pos, offsets: seq<(int, int)>): (r: seq<Pos>)
    ensures forall t :: t in r ==> Enterable(b, t, c)
    ensures forall t :: t in r ==> exists j :: 0 <= j < |offsets| && t == Offset(pos, offsets[j])
    ensures forall j :: 0 <= j < |offsets| && Enterable(b, Offset(pos, offsets[j]), c) ==>
      Offset(pos, offsets[j]) in r
  {
    if |offsets| == 0 then []
    else
      var p := Offset(pos, offsets[0]);
      var rest := Steps(b, c, pos, offsets[1..]);
      assert forall j :: 1 <= j < |offsets| ==> offsets[j] == offsets[1..][j - 1];
      if Enterable(b, p, c) then [p] + rest else rest
  }

  function PawnDirection(c: Color): int
  {
    if c == White then -1 else 1
  }

  function PawnStartRow(c: Color): int
  {
    if c == White then 6 else 1
  }

  /** The pawn's forward squares: one step when it is empty, then a second
      step from the start row when that square is empty too. */
  function PawnAdvances(b: Board, c: Color, pos: Pos): seq<Pos>
  {
    var dir := PawnDirection(c);
    var front := Pos(pos.x + dir, pos.y);
    if IsEmptySquare(b, front) then
      var double := Pos(pos.x + 2 * dir, pos.y);
      [front] + (if pos.x == PawnStartRow(c) && IsEmptySquare(b, double) then [double] else [])
    else []
  }

  function PawnCapture(b: Board, c: Color, p: Pos): seq<Pos>
  {
    if HoldsOpponent(b, p, c) then [p] else []
  }

  /** Reference description of pawn moves: one step forward onto an empty
      square, two steps from the start row over two empty squares, or one
      step diagonally forward onto a piece of the other colour. */
  predicate PawnReaches(b: Board, c: Color, pos: Pos, t: Pos)
  {
    var dir := PawnDirection(c);
    var front := Pos(pos.x + dir, pos.y);
    || (t == front && IsEmptySquare(b, front))
    || (t == Pos(pos.x + 2 * dir, pos.y) && pos.x == PawnStartRow(c) && IsEmptySquare(b, front) && IsEmptySquare(b, t))
    || ((t == Pos(pos.x + dir, pos.y - 1) || t == Pos(pos.x + dir, pos.y + 1)) && HoldsOpponent(b, t, c))
  }

  function GetPawnMoves(b: Board, piece: Piece, pos: Pos): (r: seq<Pos>)
    ensures
      var dir := PawnDirection(piece.color);
      var front := Pos(pos.x + dir, pos.y);
      var double := Pos(pos.x + 2 * dir, pos.y);
      && (front in r <==> IsEmptySquare(b, front))
      && (double in r <==> pos.x == PawnStartRow(piece.color) && IsEmptySquare(b, front) && IsEmptySquare(b, double))
      && (Pos(pos.x + dir, pos.y - 1) in r <==> HoldsOpponent(b, Pos(pos.x + dir, pos.y - 1), piece.color))
      && (Pos(pos.x + dir, pos.y + 1) in r <==> HoldsOpponent(b, Pos(pos.x + dir, pos.y + 1), piece.color))
      && (forall t :: t in r ==> t == front || t == double || t == Pos(pos.x + dir, pos.y - 1) || t == Pos(pos.x + dir, pos.y + 1))
    ensures forall t :: t in r <==> PawnReaches(b, piece.color, pos, t)
    ensures forall t :: t in r ==> Enterable(b, t, piece.color)
  {
    var dir := PawnDirection(piece.color);
    PawnAdvances(b, piece.color, pos)
      + PawnCapture(b, piece.color, Pos(pos.x + dir, pos.y - 1))
      + PawnCapture(b, piece.color, Pos(pos.x + dir, pos.y + 1))
  }

  /** Rook moves: along a rank or a file over empty squares, onto an empty
      square or a piece of the other colour. */
  function GetRookMoves(b: Board, piece: Piece, pos: Pos): (r: seq<Pos>)
    ensures forall t :: t in r <==> SlidesTo(b, piece.color, pos, RookDirections, t)
    ensures forall t :: t in r ==> Enterable(b, t, piece.color)
  {
    forall t { SlideMembers(b, piece.color, pos, RookDirections, t); }
    Slide(b, piece.color, pos, RookDirections)
  }

  /** Bishop moves: along a diagonal over empty squares. */
  function GetBishopMoves(b: Board, piece: Piece, pos: Pos): (r: seq<Pos>)
    ensures forall t :: t in r <==> SlidesTo(b, piece.color, pos, BishopDirections, t)
    ensures forall t :: t in r ==> Enterable(b, t, piece.color)
  {
    forall t { SlideMembers(b, piece.color, pos, BishopDirections, t); }
    Slide(b, piece.color, pos, BishopDirections)
  }

  /** Queen moves: the rook's moves, then the bishop's. */
  function GetQueenMoves(b: Board, piece: Piece, pos: Pos): (r: seq<Pos>)
    ensures r == GetRookMoves(b, piece, pos) + GetBishopMoves(b, piece, pos)
    ensures forall t :: t in r <==>
      SlidesTo(b, piece.color, pos, RookDirections, t) || SlidesTo(b, piece.color, pos, BishopDirections, t)
    ensures forall t :: t in r ==> Enterable(b, t, piece.color)
  {
    GetRookMoves(b, piece, pos) + GetBishopMoves(b, piece, pos)
  }

  function Abs(z: int): nat
  {
    if z < 0 then -z else z
  }

  /** `t` is a knight's jump from `p`: two squares one way and one the other. */
  predicate KnightJump(p: Pos, t: Pos)
  {
    var dx, dy := Abs(t.x - p.x), Abs(t.y - p.y);
    (dx == 1 && dy == 2) || (dx == 2 && dy == 1)
  }

  /** `t` is one of the eight squares around `p`. */
  predicate KingStep(p: Pos, t: Pos)
  {
    t != p && Abs(t.x - p.x) <= 1 && Abs(t.y - p.y) <= 1
  }

  lemma KnightJumpOffsets(p: Pos, t: Pos)
    ensures KnightJump(p, t) <==> exists j :: 0 <= j < |KnightJumps| && t == Offset(p, KnightJumps[j])
  {
    var dx, dy := t.x - p.x, t.y - p.y;
    if KnightJump(p, t) {
      var j :=
        if dx == -2 then (if dy == -1 then 0 else 1)
        else if dx == -1 then (if dy == -2 then 2 else 3)
        else if dx == 1 then (if dy == -2 then 4 else 5)
        else (if dy == -1 then 6 else 7);
      assert t == Offset(p, KnightJumps[j]);
    }
    if exists j :: 0 <= j < |KnightJumps| && t == Offset(p, KnightJumps[j]) {
      var j :| 0 <= j < |KnightJumps| && t == Offset(p, KnightJumps[j]);
      assert j in {0, 1, 2, 3, 4, 5, 6, 7};
    }
  }

  lemma KingStepOffsets(p: Pos, t: Pos)
    ensures KingStep(p, t) <==> exists j :: 0 <= j < |KingSteps| && t == Offset(p, KingSteps[j])
  {
    var dx, dy := t.x - p.x, t.y - p.y;
    if KingStep(p, t) {
      var j :=
        if dx == -1 then (if dy == -1 then 0 else if dy == 0 then 1 else 2)
        else if dx == 0 then (if dy == -1 then 3 else 4)
        else (if dy == -1 then 5 else if dy == 0 then 6 else 7);
      assert t == Offset(p, KingSteps[j]);
    }
    if exists j :: 0 <= j < |KingSteps| && t == Offset(p, KingSteps[j]) {
      var j :| 0 <= j < |KingSteps| && t == Offset(p, KingSteps[j]);
      assert j in {0, 1, 2, 3, 4, 5, 6, 7};
    }
  }

  /** Knight moves: every knight's jump that lands on an enterable square. */
  function GetKnightMoves(b: Board, piece: Piece, pos: Pos): (r: seq<Pos>)
    ensures forall t :: t in r <==> KnightJump(pos, t) && Enterable(b, t, piece.color)
  {
    forall t { KnightJumpOffsets(pos, t); }
    Steps(b, piece.color, pos, KnightJumps)
  }

  /** King moves: every neighbouring square that is enterable. Castling is
      not generated. */
  function GetKingMoves(b: Board, piece: Piece, pos: Pos): (r: seq<Pos>)
    ensures forall t :: t in r <==> KingStep(pos, t) && Enterable(b, t, piece.color)
  {
    forall t { KingStepOffsets(pos, t); }
    Steps(b, piece.color, pos, KingSteps)
  }

  /** Keeps the on-board positions, in order. */
  function FilterValid(s: seq<Pos>): (r: seq<Pos>)
    ensures forall t :: t in r <==> t in s && IsValidPosition(t)
    ensures (forall t :: t in s ==> IsValidPosition(t)) ==> r == s
  {
    if |s| == 0 then []
    else if IsValidPosition(s[0]) then [s[0]] + FilterValid(s[1..])
    else FilterValid(s[1..])
  }

  /** Reference description of where `piece` on `pos` may go, ignoring the
      safety of its own king. */
  ghost predicate Reaches(b: Board, piece: Piece, pos: Pos, t: Pos)
  {
    var c := piece.color;
    match piece.kind
    case Pawn => PawnReaches(b, c, pos, t)
    case Rook => SlidesTo(b, c, pos, RookDirections, t)
    case Knight => KnightJump(pos, t) && Enterable(b, t, c)
    case Bishop => SlidesTo(b, c, pos, BishopDirections, t)
    case Queen => SlidesTo(b, c, pos, RookDirections, t) || SlidesTo(b, c, pos, BishopDirections, t)
    case King => KingStep(pos, t) && Enterable(b, t, c)
  }

  /** Pseudo-legal destinations of `piece` standing on `pos`, in the order the
      per-piece generator produces them. */
  function GetPossibleMoves(b: Board, piece: Piece, pos: Pos): (r: seq<Pos>)
    ensures forall t :: t in r <==> Reaches(b, piece, pos, t)
    ensures forall t :: t in r ==> IsValidPosition(t)
    ensures forall t :: t in r ==> At(b, t).None? || At(b, t).value.color != piece.color
  {
    var generated :=
      match piece.kind
      case Pawn => GetPawnMoves(b, piece, pos)
      case Rook => GetRookMoves(b, piece, pos)
      case Knight => GetKnightMoves(b, piece, pos)
      case Bishop => GetBishopMoves(b, piece, pos)
      case Queen => GetQueenMoves(b, piece, pos)
      case King => GetKingMoves(b, piece, pos);
    FilterValid(generated)
  }

  // ---------------------------------------------------------------------
  // Attack and check

  /** The piece on `from` belongs to `c` and has `target` among its
      pseudo-legal destinations. */
  predicate Attacks(b: Board, from: Pos, target: Pos, c: Color)
    requires IsValidPosition(from)
  {
    At(b, from).Some? && At(b, from).value.color == c
    && target in GetPossibleMoves(b, At(b, from).value, from)
  }

  /** Square number `j` holds an attacker of `target`. */
  predicate AttackerAt(b: Board, target: Pos, c: Color, j: int)
  {
    0 <= j < 64 && IsValidPosition(SquareAt(j)) && Attacks(b, SquareAt(j), target, c)
  }

  /** Some square numbered `k` or later holds an attacker of `target`. */
  predicate AttackScan(b: Board, target: Pos, c: Color, k: int)
    requires 0 <= k <= 64
    decreases 64 - k
  {
    if k == 64 then false
    else AttackerAt(b, target, c, k) || AttackScan(b, target, c, k + 1)
  }

  lemma {:induction false} AttackScanFinds(b: Board, target: Pos, c: Color, k: int)
    requires 0 <= k <= 64
    ensures AttackScan(b, target, c, k) <==> exists j :: k <= j && AttackerAt(b, target, c, j)
    decreases 64 - k
  {
    if k < 64 {
      AttackScanFinds(b, target, c, k + 1);
      if exists j :: k <= j && AttackerAt(b, target, c, j) {
        var j :| k <= j && AttackerAt(b, target, c, j);
        assert j == k || k + 1 <= j;
      }
    }
  }

  /** Some piece of `c` attacks `target`. Attacks are pseudo-legal: the
      attacker's own king safety is not considered. */
  predicate IsSquareUnderAttack(b: Board, target: Pos, c: Color)
    ensures IsSquareUnderAttack(b, target, c) <==>
      exists p :: IsValidPosition(p) && Attacks(b, p, target, c)
  {
    AttackScanFinds(b, target, c, 0);
    forall p | IsValidPosition(p) && Attacks(b, p, target, c)
      ensures AttackScan(b, target, c, 0)
    {
      SquareAtIndex(p);
      assert AttackerAt(b, target, c, Index(p));
    }
    AttackScan(b, target, c, 0)
  }

  predicate IsKingOf(b: Board, p: Pos, c: Color)
    requires IsValidPosition(p)
  {
    At(b, p).Some? && At(b, p).value.kind == King && At(b, p).value.color == c
  }

  function FindKingFrom(b: Board, c: Color, k: int): (r: Option<Pos>)
    requires 0 <= k <= 64
    decreases 64 - k
    ensures r.Some? ==>
      && IsValidPosition(r.value) && IsKingOf(b, r.value, c) && k <= Index(r.value)
      && forall j :: k <= j < Index(r.value) ==> !IsKingOf(b, SquareAt(j), c)
    ensures r.None? ==> forall j :: k <= j < 64 ==> !IsKingOf(b, SquareAt(j), c)
  {
    if k == 64 then None
    else if IsKingOf(b, SquareAt(k), c) then (IndexSquareAt(k); Some(SquareAt(k)))
    else FindKingFrom(b, c, k + 1)
  }

  /** The first king of colour `c` in row-major order, if there is one. */
  function FindKing(b: Board, c: Color): (r: Option<Pos>)
    ensures r.None? <==> forall p :: IsValidPosition(p) ==> !IsKingOf(b, p, c)
    ensures r.Some? ==>
      && IsValidPosition(r.value) && IsKingOf(b, r.value, c)
      && forall q :: IsValidPosition(q) && Index(q) < Index(r.value) ==> !IsKingOf(b, q, c)
  {
    var r := FindKingFrom(b, c, 0);
    forall q | IsValidPosition(q)
      ensures r.None? || Index(q) < Index(r.value) ==> !IsKingOf(b, q, c)
    {
      SquareAtIndex(q);
    }
    r
  }

  /** `p` holds `c`'s king and no square before it in row-major order does. */
  ghost predicate IsFirstKing(b: Board, p: Pos, c: Color)
  {
    && IsValidPosition(p) && IsKingOf(b, p, c)
    && forall q :: IsValidPosition(q) && Index(q) < Index(p) ==> !IsKingOf(b, q, c)
  }

  /** The scan for the king stops at the first one. */
  lemma FindKingIsFirst(b: Board, c: Color, p: Pos)
    requires IsFirstKing(b, p, c)
    ensures FindKing(b, c) == Some(p)
  {
    var k := FindKing(b, c).value;
    SquareAtIndex(p);
    SquareAtIndex(k);
    assert Index(k) == Index(p);
  }

  /** `c`'s king stands on a square the other colour attacks. A board with no
      king of that colour is never in check; with several, the first one in
      row-major order is the one that counts. */
  predicate IsInCheck(b: Board, c: Color)
    ensures forall p :: IsFirstKing(b, p, c) ==> (IsInCheck(b, c) <==> IsSquareUnderAttack(b, p, Opponent(c)))
    ensures (forall p :: IsValidPosition(p) ==> !IsKingOf(b, p, c)) ==> !IsInCheck(b, c)
    ensures IsInCheck(b, c) ==>
      exists p :: IsValidPosition(p) && IsKingOf(b, p, c) && IsSquareUnderAttack(b, p, Opponent(c))
  {
    forall p | IsFirstKing(b, p, c)
      ensures FindKing(b, c) == Some(p)
    {
      FindKingIsFirst(b, c, p);
    }
    match FindKing(b, c)
    case None => false
    case Some(k) => IsSquareUnderAttack(b, k, Opponent(c))
  }

  /** `to` is a pseudo-legal destination of the piece on `from`. */
  predicate IsValidMove(b: Board, from: Pos, to: Pos)
    requires IsValidPosition(from)
    ensures IsValidMove(b, from, to) <==> At(b, from).Some? && Reaches(b, At(b, from).value, from, to)
    ensures IsValidMove(b, from, to) ==> At(b, from).Some? && Enterable(b, to, At(b, from).value.color)
  {
    match At(b, from)
    case None => false
    case Some(piece) => to in GetPossibleMoves(b, piece, from)
  }

  // ---------------------------------------------------------------------
  // Move application

  predicate MoveInBounds(m: Move)
  {
    IsValidPosition(m.from) && IsValidPosition(m.to)
  }

  /** Every move of a game record has both squares on the board. */
  predicate HistoryInBounds(ms: seq<Move>)
  {
    forall i :: 0 <= i < |ms| ==> MoveInBounds(ms[i])
  }

  function SetSquare(b: Board, p: Pos, s: Square): (r: Board)
    requires IsValidPosition(p)
    ensures At(r, p) == s
    ensures forall q :: IsValidPosition(q) && q != p ==> At(r, q) == At(b, q)
  {
    b[p.x := b[p.x][p.y := s]]
  }

  /** A new board with the moving piece on `to` (marked as moved) and `from`
      emptied; the input board is a value and is not changed. */
  function MakeMove(b: Board, m: Move): (r: Board)
    requires MoveInBounds(m)
    ensures At(r, m.from).None?
    ensures m.from != m.to ==> At(r, m.to) == Some(m.piece.(hasMoved := true))
    ensures forall q :: IsValidPosition(q) && q != m.from && q != m.to ==> At(r, q) == At(b, q)
  {
    var placed := SetSquare(b, m.to, Some(m.piece));
    var cleared := SetSquare(placed, m.from, None);
    match At(cleared, m.to)
    case Some(p) => SetSquare(cleared, m.to, Some(p.(hasMoved := true)))
    case None => cleared
  }

  // ---------------------------------------------------------------------
  // Legal moves

  /** The move `getAllValidMoves` builds for `piece` going from `from` to `to`. */
  function MoveTo(b: Board, from: Pos, to: Pos, piece: Piece): Move
    requires IsValidPosition(to)
  {
    Move(from, to, piece, At(b, to))
  }

  /** `m` is one of `c`'s legal moves on `b`: it moves `c`'s piece from its
      square to a pseudo-legal destination, records the occupant of that
      destination as captured, and does not leave `c`'s king in check. */
  predicate IsLegal(b: Board, c: Color, m: Move)
  {
    && IsValidPosition(m.from)
    && At(b, m.from) == Some(m.piece)
    && m.piece.color == c
    && m.to in GetPossibleMoves(b, m.piece, m.from)
    && m.captured == At(b, m.to)
    && !IsInCheck(MakeMove(b, m), c)
  }

  /** The destinations in `tos` after which `c`'s king is not in check, as
      moves, in the order of `tos`. */
  function LegalMovesFrom(b: Board, c: Color, from: Pos, piece: Piece, tos: seq<Pos>): (r: seq<Move>)
    requires IsValidPosition(from)
    requires forall t :: t in tos ==> IsValidPosition(t)
    ensures forall m :: m in r <==>
      && m.from == from && m.piece == piece && m.to in tos && m.captured == At(b, m.to)
      && !IsInCheck(MakeMove(b, m), c)
  {
    if |tos| == 0 then []
    else
      var m := MoveTo(b, from, tos[0], piece);
      var rest := LegalMovesFrom(b, c, from, piece, tos[1..]);
      if !IsInCheck(MakeMove(b, m), c) then [m] + rest else rest
  }

  function MovesOnSquare(b: Board, c: Color, from: Pos): (r: seq<Move>)
    requires IsValidPosition(from)
    ensures forall m :: m in r <==> IsLegal(b, c, m) && m.from == from
  {
    match At(b, from)
    case None => []
    case Some(piece) =>
      if piece.color == c then LegalMovesFrom(b, c, from, piece, GetPossibleMoves(b, piece, from))
      else []
  }

  function LegalMovesScan(b: Board, c: Color, k: int): (r: seq<Move>)
    requires 0 <= k <= 64
    decreases 64 - k
    ensures forall m :: m in r <==> IsLegal(b, c, m) && k <= Index(m.from)
    ensures forall i, j :: 0 <= i < j < |r| ==> Index(r[i].from) <= Index(r[j].from)
  {
    if k == 64 then []
    else
      IndexSquareAt(k);
      var here := MovesOnSquare(b, c, SquareAt(k));
      var rest := LegalMovesScan(b, c, k + 1);
      forall m | IsLegal(b, c, m)
        ensures k <= Index(m.from) <==> m.from == SquareAt(k) || k + 1 <= Index(m.from)
      {
        SquareAtIndex(m.from);
      }
      var r := here + rest;
      forall i, j | 0 <= i < j < |r| ensures Index(r[i].from) <= Index(r[j].from) {
        if j < |here| {
          assert r[i] == here[i] && r[j] == here[j];
        } else if i < |here| {
          assert r[i] == here[i] && r[j] == rest[j - |here|];
        } else {
          assert r[i] == rest[i - |here|] && r[j] == rest[j - |here|];
        }
      }
      r
  }

  /** All legal moves of `c`: squares in row-major order, each piece's
      destinations in generation order. */
  function GetAllValidMoves(b: Board, c: Color): (r: seq<Move>)
    ensures forall m :: m in r <==> IsLegal(b, c, m)
    ensures forall m :: m in r ==> MoveInBounds(m)
    ensures forall i, j :: 0 <= i < j < |r| ==> Index(r[i].from) <= Index(r[j].from)
  {
    forall m | IsLegal(b, c, m) ensures 0 <= Index(m.from) {
      SquareAtIndex(m.from);
    }
    LegalMovesScan(b, c, 0)
  }

  /** The list of legal moves is empty exactly when no move is legal. */
  lemma NoLegalMoves(b: Board, c: Color)
    ensures |GetAllValidMoves(b, c)| == 0 <==> forall m :: !IsLegal(b, c, m)
  {
    var r := GetAllValidMoves(b, c);
    if |r| > 0 {
      assert r[0] in r;
    }
  }

  predicate IsCheckmate(b: Board, c: Color)
    ensures IsCheckmate(b, c) <==> IsInCheck(b, c) && forall m :: !IsLegal(b, c, m)
  {
    NoLegalMoves(b, c);
    IsInCheck(b, c) && |GetAllValidMoves(b, c)| == 0
  }

  predicate IsStalemate(b: Board, c: Color)
    ensures IsStalemate(b, c) <==> !IsInCheck(b, c) && forall m :: !IsLegal(b, c, m)
  {
    NoLegalMoves(b, c);
    !IsInCheck(b, c) && |GetAllValidMoves(b, c)| == 0
  }

  // ---------------------------------------------------------------------
  // Material

  /** The engine's own piece values; the king is worth nothing. */
  function EngineValue(k: PieceType): int
  {
    match k
    case Pawn => 1
    case Knight => 3
    case Bishop => 3
    case Rook => 5
    case Queen => 9
    case King => 0
  }

  function SignedValue(s: Square, value: PieceType -> int): int
  {
    match s
    case None => 0
    case Some(p) => if p.color == White then value(p.kind) else -value(p.kind)
  }

  function RowMaterial(row: seq<Square>, value: PieceType -> int): int
  {
    if |row| == 0 then 0 else SignedValue(row[0], value) + RowMaterial(row[1..], value)
  }

  /** Material of the first `n` rows: white's pieces count for, black's against. */
  function RowsMaterial(b: Board, value: PieceType -> int, n: int): int
    requires 0 <= n <= 8
  {
    if n == 0 then 0 else RowsMaterial(b, value, n - 1) + RowMaterial(b[n - 1], value)
  }

  function Material(b: Board, value: PieceType -> int): int
  {
    RowsMaterial(b, value, 8)
  }

  function EvaluatePosition(b: Board): int
  {
    Material(b, EngineValue)
  }
  // ---------------------------------------------------------------------
  // Facts about the starting position and the classification

  function RowCount(row: seq<Square>, c: Color): int
  {
    if |row| == 0 then 0
    else (if row[0].Some? && row[0].value.color == c then 1 else 0) + RowCount(row[1..], c)
  }

  /** Number of pieces of colour `c` in the first `n` rows. */
  function RowsCount(b: Board, c: Color, n: int): int
    requires 0 <= n <= 8
  {
    if n == 0 then 0 else RowsCount(b, c, n - 1) + RowCount(b[n - 1], c)
  }

  function PieceCount(b: Board, c: Color): int
  {
    RowsCount(b, c, 8)
  }

  lemma {:induction false} RowCountFull(row: seq<Square>, c: Color)
    requires forall j :: 0 <= j < |row| ==> row[j].Some? && row[j].value.color == c
    ensures RowCount(row, c) == |row|
    decreases |row|
  {
    if |row| > 0 {
      RowCountFull(row[1..], c);
    }
  }

  lemma {:induction false} RowCountNone(row: seq<Square>, c: Color)
    requires forall j :: 0 <= j < |row| ==> row[j].None? || row[j].value.color != c
    ensures RowCount(row, c) == 0
    decreases |row|
  {
    if |row| > 0 {
      RowCountNone(row[1..], c);
    }
  }

  /** The starting position holds sixteen pieces of each colour. */
  lemma InitialPieceCounts()
    ensures PieceCount(InitializeBoard(), White) == 16
    ensures PieceCount(InitializeBoard(), Black) == 16
  {
    var b := InitializeBoard();
    forall c: Color, x | 0 <= x < 8
      ensures RowCount(b[x], c) == if (x <= 1 && c == Black) || (x >= 6 && c == White) then 8 else 0
    {
      if (x <= 1 && c == Black) || (x >= 6 && c == White) {
        RowCountFull(b[x], c);
      } else {
        RowCountNone(b[x], c);
      }
    }
  }

  /** Rows whose squares carry opposite signed values have opposite material. */
  lemma {:induction false} RowMaterialOpposite(r1: seq<Square>, r2: seq<Square>, value: PieceType -> int)
    requires |r1| == |r2|
    requires forall j :: 0 <= j < |r1| ==> SignedValue(r1[j], value) == -SignedValue(r2[j], value)
    ensures RowMaterial(r1, value) == -RowMaterial(r2, value)
    decreases |r1|
  {
    if |r1| > 0 {
      RowMaterialOpposite(r1[1..], r2[1..], value);
    }
  }

  /** The board seen from the other side: rows reversed and colours swapped. */
  function FlipSquare(s: Square): Square
  {
    match s
    case None => None
    case Some(p) => Some(p.(color := Opponent(p.color)))
  }

  function MirrorPos(p: Pos): Pos
  {
    Pos(7 - p.x, p.y)
  }

  function Mirror(b: Board): (r: Board)
    ensures forall p :: IsValidPosition(p) ==> IsValidPosition(MirrorPos(p)) && At(r, MirrorPos(p)) == FlipSquare(At(b, p))
  {
    var rows := seq(8, x requires 0 <= x < 8 => seq(8, y requires 0 <= y < 8 => FlipSquare(b[7 - x][y])));
    assert forall x :: 0 <= x < 8 ==> |rows[x]| == 8;
    rows
  }

  lemma MaterialByRows(b: Board, value: PieceType -> int)
    ensures Material(b, value)
      == RowMaterial(b[0], value) + RowMaterial(b[1], value) + RowMaterial(b[2], value) + RowMaterial(b[3], value)
       + RowMaterial(b[4], value) + RowMaterial(b[5], value) + RowMaterial(b[6], value) + RowMaterial(b[7], value)
  {
    assert RowsMaterial(b, value, 1) == RowMaterial(b[0], value);
    assert RowsMaterial(b, value, 2) == RowsMaterial(b, value, 1) + RowMaterial(b[1], value);
    assert RowsMaterial(b, value, 3) == RowsMaterial(b, value, 2) + RowMaterial(b[2], value);
    assert RowsMaterial(b, value, 4) == RowsMaterial(b, value, 3) + RowMaterial(b[3], value);
    assert RowsMaterial(b, value, 5) == RowsMaterial(b, value, 4) + RowMaterial(b[4], value);
    assert RowsMaterial(b, value, 6) == RowsMaterial(b, value, 5) + RowMaterial(b[5], value);
    assert RowsMaterial(b, value, 7) == RowsMaterial(b, value, 6) + RowMaterial(b[6], value);
  }

  /** Mirroring the board negates its material, whatever the piece values. */
  lemma {:induction false} MaterialMirror(b: Board, value: PieceType -> int)
    ensures Material(Mirror(b), value) == -Material(b, value)
  {
    var m := Mirror(b);
    forall x | 0 <= x < 8
      ensures RowMaterial(m[x], value) == -RowMaterial(b[7 - x], value)
    {
      forall j | 0 <= j < 8
        ensures SignedValue(m[x][j], value) == -SignedValue(b[7 - x][j], value)
      {
        assert m[x][j] == FlipSquare(b[7 - x][j]);
      }
      RowMaterialOpposite(m[x], b[7 - x], value);
    }
    MaterialByRows(m, value);
    MaterialByRows(b, value);
  }

  /** The starting position is its own mirror image. */
  lemma InitialBoardSymmetric()
    ensures Mirror(InitializeBoard()) == InitializeBoard()
  {
    var b := InitializeBoard();
    var m := Mirror(b);
    forall x | 0 <= x < 8
      ensures m[x] == b[x]
    {
      forall y | 0 <= y < 8
        ensures m[x][y] == b[x][y]
      {
        assert m[x][y] == FlipSquare(b[7 - x][y]);
      }
    }
  }

  /** Whatever the piece values, the two sides start with equal material. */
  lemma InitialMaterialBalanced(value: PieceType -> int)
    ensures Material(InitializeBoard(), value) == 0
  {
    InitialBoardSymmetric();
    MaterialMirror(InitializeBoard(), value);
  }

  /** The engine's material evaluation of the starting position is zero. */
  lemma InitialEvaluationIsZero()
    ensures EvaluatePosition(InitializeBoard()) == 0
  {
    InitialMaterialBalanced(EngineValue);
  }

  /** Exactly one of playing, check, checkmate and stalemate describes a side:
      checkmate and stalemate exclude each other and checkmate implies check. */
  lemma ClassificationExclusive(b: Board, c: Color)
    ensures !(IsCheckmate(b, c) && IsStalemate(b, c))
    ensures IsCheckmate(b, c) ==> IsInCheck(b, c)
    ensures IsStalemate(b, c) ==> !IsInCheck(b, c)
    ensures |GetAllValidMoves(b, c)| == 0 <==> IsCheckmate(b, c) || IsStalemate(b, c)
  {
  }
}
