/** The computer opponent: fixed-depth minimax with fail-soft alpha-beta
    pruning over an integer evaluation (material, centre squares, king
    safety). Black is the maximizing side and white the minimizing side;
    scores are from white's point of view for material and position. */
module AI {
  import opened ChessTypes
  import opened ChessEngine
  import opened ExtScores

  datatype Difficulty = Easy | Medium | Hard

  /** The search configuration: its only parameter is the depth in plies. */
  datatype ChessAI = ChessAI(maxDepth: nat)

  function DifficultyRank(d: Difficulty): int
  {
    match d
    case Easy => 0
    case Medium => 1
    case Hard => 2
  }

  /** Easy searches 2 plies, medium 3 and hard 4. */
  function NewChessAI(d: Difficulty): (ai: ChessAI)
    ensures ai.maxDepth == 2 + DifficultyRank(d)
  {
    match d
    case Easy => ChessAI(2)
    case Medium => ChessAI(3)
    case Hard => ChessAI(4)
  }

  // ---------------------------------------------------------------------
  // Evaluation

  function AIValue(k: PieceType): int
  {
    match k
    case Pawn => 100
    case Knight => 320
    case Bishop => 330
    case Rook => 500
    case Queen => 900
    case King => 20000
  }

  function GetMaterialScore(b: Board): int
  {
    Material(b, AIValue)
  }

  /** +10 for a white piece on `p`, -10 for a black one. */
  function CenterBonus(b: Board, p: Pos): int
    requires IsValidPosition(p)
  {
    match At(b, p)
    case None => 0
    case Some(piece) => if piece.color == White then 10 else -10
  }

  function CenterScore(b: Board): int
  {
    CenterBonus(b, Pos(3, 3)) + CenterBonus(b, Pos(3, 4)) + CenterBonus(b, Pos(4, 3)) + CenterBonus(b, Pos(4, 4))
  }

  predicate InCentralRegion(p: Pos)
  {
    2 <= p.x <= 5 && 2 <= p.y <= 5
  }

  /** A pawn of colour `c` stands on the shield square in column offset `dy`
      in front of the king (one row towards the opponent). */
  predicate ShieldPawn(b: Board, kingPos: Pos, c: Color, dy: int)
  {
    var q := Pos(kingPos.x + PawnDirection(c), kingPos.y + dy);
    IsValidPosition(q) && At(b, q).Some? && At(b, q).value.kind == Pawn && At(b, q).value.color == c
  }

  function ShieldBonus(b: Board, kingPos: Pos, c: Color, dy: int): int
  {
    if ShieldPawn(b, kingPos, c, dy) then 5 else 0
  }

  /** The column offsets -1, 0, 1 whose shield square holds an own pawn. */
  function ShieldPawns(b: Board, kingPos: Pos, c: Color): set<int>
  {
    set dy | -1 <= dy <= 1 && ShieldPawn(b, kingPos, c, dy)
  }

  /** Each shield pawn is worth 5. */
  lemma ShieldPawnsBonus(b: Board, kingPos: Pos, c: Color)
    ensures 5 * |ShieldPawns(b, kingPos, c)|
         == ShieldBonus(b, kingPos, c, -1) + ShieldBonus(b, kingPos, c, 0) + ShieldBonus(b, kingPos, c, 1)
  {
    var left: set<int> := if ShieldPawn(b, kingPos, c, -1) then {-1} else {};
    var mid: set<int> := if ShieldPawn(b, kingPos, c, 0) then {0} else {};
    var right: set<int> := if ShieldPawn(b, kingPos, c, 1) then {1} else {};
    assert ShieldPawns(b, kingPos, c) == left + mid + right;
    assert left * mid == {};
    assert (left + mid) * right == {};
    assert |left + mid| == |left| + |mid|;
    assert |left + mid + right| == |left + mid| + |right|;
  }

  /** -20 for a king in the central 4x4 region, +5 per shield pawn. */
  function GetKingSafety(b: Board, kingPos: Pos, c: Color): (r: int)
    ensures r == (if InCentralRegion(kingPos) then -20 else 0) + 5 * |ShieldPawns(b, kingPos, c)|
    ensures -20 <= r <= 15
    ensures InCentralRegion(kingPos) ==> r <= -5
    ensures !InCentralRegion(kingPos) ==> r >= 0
    ensures r == 15 || r == -5 <==>
      ShieldPawn(b, kingPos, c, -1) && ShieldPawn(b, kingPos, c, 0) && ShieldPawn(b, kingPos, c, 1)
  {
    ShieldPawnsBonus(b, kingPos, c);
    (if InCentralRegion(kingPos) then -20 else 0)
      + ShieldBonus(b, kingPos, c, -1) + ShieldBonus(b, kingPos, c, 0) + ShieldBonus(b, kingPos, c, 1)
  }

  function KingTerm(b: Board, c: Color): int
  {
    match FindKing(b, c)
    case None => 0
    case Some(k) => GetKingSafety(b, k, c)
  }

  /** Centre control plus white's king safety minus black's. */
  function GetPositionScore(b: Board): int
  {
    CenterScore(b) + KingTerm(b, White) - KingTerm(b, Black)
  }

  function EvaluatePosition(b: Board): int
  {
    GetMaterialScore(b) + GetPositionScore(b)
  }

  // ---------------------------------------------------------------------
  // Colour symmetry of the evaluation

  ghost predicate UniqueKing(b: Board, c: Color)
  {
    forall p, q :: IsValidPosition(p) && IsValidPosition(q) && IsKingOf(b, p, c) && IsKingOf(b, q, c) ==> p == q
  }

  lemma MirrorKingOf(b: Board, p: Pos, c: Color)
    requires IsValidPosition(p)
    ensures IsKingOf(Mirror(b), MirrorPos(p), Opponent(c)) <==> IsKingOf(b, p, c)
  {
  }

  lemma FindKingMirror(b: Board, c: Color)
    requires UniqueKing(b, c)
    ensures FindKing(b, c).None? ==> FindKing(Mirror(b), Opponent(c)).None?
    ensures FindKing(b, c).Some? ==> FindKing(Mirror(b), Opponent(c)) == Some(MirrorPos(FindKing(b, c).value))
  {
    var m := Mirror(b);
    var k := FindKing(m, Opponent(c));
    if k.Some? {
      var q := k.value;
      assert MirrorPos(MirrorPos(q)) == q;
      MirrorKingOf(b, MirrorPos(q), c);
      assert IsKingOf(b, MirrorPos(q), c);
      MirrorKingOf(b, FindKing(b, c).value, c);
    } else if FindKing(b, c).Some? {
      MirrorKingOf(b, FindKing(b, c).value, c);
    }
  }

  lemma ShieldPawnMirror(b: Board, kingPos: Pos, c: Color, dy: int)
    ensures ShieldPawn(Mirror(b), MirrorPos(kingPos), Opponent(c), dy) <==> ShieldPawn(b, kingPos, c, dy)
  {
    var q := Pos(kingPos.x + PawnDirection(c), kingPos.y + dy);
    assert Pos(MirrorPos(kingPos).x + PawnDirection(Opponent(c)), kingPos.y + dy) == MirrorPos(q);
  }

  lemma KingSafetyMirror(b: Board, kingPos: Pos, c: Color)
    ensures GetKingSafety(Mirror(b), MirrorPos(kingPos), Opponent(c)) == GetKingSafety(b, kingPos, c)
  {
    var m := Mirror(b);
    var k := MirrorPos(kingPos);
    ShieldPawnMirror(b, kingPos, c, -1);
    ShieldPawnMirror(b, kingPos, c, 0);
    ShieldPawnMirror(b, kingPos, c, 1);
    assert ShieldBonus(m, k, Opponent(c), -1) == ShieldBonus(b, kingPos, c, -1);
    assert ShieldBonus(m, k, Opponent(c), 0) == ShieldBonus(b, kingPos, c, 0);
    assert ShieldBonus(m, k, Opponent(c), 1) == ShieldBonus(b, kingPos, c, 1);
    assert InCentralRegion(k) == InCentralRegion(kingPos);
  }

  lemma KingTermMirror(b: Board, c: Color)
    requires UniqueKing(b, c)
    ensures KingTerm(Mirror(b), Opponent(c)) == KingTerm(b, c)
  {
    FindKingMirror(b, c);
    if FindKing(b, c).Some? {
      KingSafetyMirror(b, FindKing(b, c).value, c);
    }
  }

  lemma CenterMirror(b: Board)
    ensures CenterScore(Mirror(b)) == -CenterScore(b)
  {
    var m := Mirror(b);
    assert m[3][3] == FlipSquare(b[4][3]) && m[3][4] == FlipSquare(b[4][4]);
    assert m[4][3] == FlipSquare(b[3][3]) && m[4][4] == FlipSquare(b[3][4]);
  }

  /** With one king per colour, the evaluation is colour-symmetric: the
      mirrored board (rows reversed, colours swapped) scores the negation. */
  lemma EvaluationMirror(b: Board)
    requires UniqueKing(b, White) && UniqueKing(b, Black)
    ensures EvaluatePosition(Mirror(b)) == -EvaluatePosition(b)
  {
    MaterialMirror(b, AIValue);
    KingTermMirror(b, White);
    KingTermMirror(b, Black);
    CenterMirror(b);
    assert Opponent(White) == Black && Opponent(Black) == White;
  }

  lemma InitialKingsUnique()
    ensures UniqueKing(InitializeBoard(), White) && UniqueKing(InitializeBoard(), Black)
  {
    var b := InitializeBoard();
    forall p, c | IsValidPosition(p) && IsKingOf(b, p, c)
      ensures p == (if c == White then Pos(7, 4) else Pos(0, 4))
    {
      assert p.x == 0 || p.x == 7;
      assert PieceOrder[p.y] == King;
      assert p.y == 4;
    }
  }

  /** The search's evaluation of the starting position is exactly zero. */
  lemma InitialEvaluationIsZero()
    ensures EvaluatePosition(InitializeBoard()) == 0
  {
    InitialKingsUnique();
    InitialBoardSymmetric();
    EvaluationMirror(InitializeBoard());
  }

  // ---------------------------------------------------------------------
  // Minimax with alpha-beta pruning

  /** Black moves at maximizing nodes, white at minimizing ones. */
  function SideToMove(maximizing: bool): Color
  {
    if maximizing then Black else White
  }

  /** The score of a node whose side to move is mated, `maxDepth - depth`
      plies below the root. */
  function MateScore(maximizing: bool, maxDepth: int, depth: int): int
  {
    if maximizing then -10000 + (maxDepth - depth) else 10000 - (maxDepth - depth)
  }

  /** The depth the children of a node at `depth` are searched to. */
  function ChildDepth(depth: nat): (d: nat)
    requires depth > 0
    ensures d < depth
  {
    depth - 1
  }

  /** The search as written: depth 0 evaluates, a node without legal moves is
      a mate or a stalemate, otherwise the children are searched in
      generation order with the window (alpha, beta). */
  function Minimax(b: Board, depth: nat, alpha: ExtInt, beta: ExtInt, maximizing: bool, maxDepth: int): int
    decreases depth, 1
  {
    if depth == 0 then EvaluatePosition(b)
    else
      var c := SideToMove(maximizing);
      var moves := GetAllValidMoves(b, c);
      if |moves| == 0 then
        (if IsInCheck(b, c) then MateScore(maximizing, maxDepth, depth) else 0)
      else if maximizing then MaxLoop(Children(b, moves), ChildDepth(depth), alpha, beta, NegInf, maxDepth).n
      else MinLoop(Children(b, moves), ChildDepth(depth), alpha, beta, PosInf, maxDepth).n
  }

  /** The positions reached by playing each move on `b`, in generation order. */
  function Children(b: Board, moves: seq<Move>): (kids: seq<Board>)
    requires forall m :: m in moves ==> MoveInBounds(m)
    ensures |kids| == |moves|
    ensures forall i :: 0 <= i < |moves| ==> kids[i] == MakeMove(b, moves[i])
  {
    seq(|moves|, i requires 0 <= i < |moves| => MakeMove(b, moves[i]))
  }

  /** The maximizing loop over the child positions, each searched to
      `childDepth`: keeps the running maximum `best`, raises alpha, and stops
      as soon as beta <= alpha. */
  function MaxLoop(kids: seq<Board>, childDepth: nat, alpha: ExtInt, beta: ExtInt, best: ExtInt, maxDepth: int): (r: ExtInt)
    requires !best.PosInf?
    decreases childDepth, 2, |kids|
    ensures Le(best, r)
    ensures !r.PosInf?
    ensures |kids| > 0 ==> r.Fin?
  {
    if |kids| == 0 then best
    else
      var s := Minimax(kids[0], childDepth, alpha, beta, false, maxDepth);
      var best' := Max(best, Fin(s));
      var alpha' := Max(alpha, Fin(s));
      if Le(beta, alpha') then best'
      else MaxLoop(kids[1..], childDepth, alpha', beta, best', maxDepth)
  }

  /** The minimizing loop: keeps the running minimum, lowers beta, and stops
      as soon as beta <= alpha. */
  function MinLoop(kids: seq<Board>, childDepth: nat, alpha: ExtInt, beta: ExtInt, best: ExtInt, maxDepth: int): (r: ExtInt)
    requires !best.NegInf?
    decreases childDepth, 2, |kids|
    ensures Le(r, best)
    ensures !r.NegInf?
    ensures |kids| > 0 ==> r.Fin?
  {
    if |kids| == 0 then best
    else
      var s := Minimax(kids[0], childDepth, alpha, beta, true, maxDepth);
      var best' := Min(best, Fin(s));
      var beta' := Min(beta, Fin(s));
      if Le(beta', alpha) then best'
      else MinLoop(kids[1..], childDepth, alpha, beta', best', maxDepth)
  }

  /** Reference search without pruning: every child is searched. */
  function FullMinimax(b: Board, depth: nat, maximizing: bool, maxDepth: int): int
    decreases depth, 1
  {
    if depth == 0 then EvaluatePosition(b)
    else
      var c := SideToMove(maximizing);
      var moves := GetAllValidMoves(b, c);
      if |moves| == 0 then
        (if IsInCheck(b, c) then MateScore(maximizing, maxDepth, depth) else 0)
      else if maximizing then FullMax(Children(b, moves), ChildDepth(depth), maxDepth).n
      else FullMin(Children(b, moves), ChildDepth(depth), maxDepth).n
  }

  /** The maximum of the unpruned child scores (-infinity for no children). */
  function FullMax(kids: seq<Board>, childDepth: nat, maxDepth: int): (r: ExtInt)
    decreases childDepth, 2, |kids|
    ensures |kids| > 0 ==> r.Fin?
    ensures |kids| == 0 ==> r == NegInf
  {
    if |kids| == 0 then NegInf
    else Max(Fin(FullMinimax(kids[0], childDepth, false, maxDepth)), FullMax(kids[1..], childDepth, maxDepth))
  }

  /** The minimum of the unpruned child scores (+infinity for no children). */
  function FullMin(kids: seq<Board>, childDepth: nat, maxDepth: int): (r: ExtInt)
    decreases childDepth, 2, |kids|
    ensures |kids| > 0 ==> r.Fin?
    ensures |kids| == 0 ==> r == PosInf
  {
    if |kids| == 0 then PosInf
    else Min(Fin(FullMinimax(kids[0], childDepth, true, maxDepth)), FullMin(kids[1..], childDepth, maxDepth))
  }

  /** The leaves of the search: depth 0 evaluates the position; a side with
      no legal moves scores the mate score if in check and exactly 0
      otherwise, whatever the window and with or without pruning. */
  lemma MinimaxTerminal(b: Board, depth: nat, alpha: ExtInt, beta: ExtInt, maximizing: bool, maxDepth: int)
    ensures depth == 0 ==> Minimax(b, depth, alpha, beta, maximizing, maxDepth) == EvaluatePosition(b)
    ensures depth > 0 && |GetAllValidMoves(b, SideToMove(maximizing))| == 0 ==>
      Minimax(b, depth, alpha, beta, maximizing, maxDepth)
        == (if IsInCheck(b, SideToMove(maximizing))
            then (if maximizing then -(10000 - (maxDepth - depth)) else 10000 - (maxDepth - depth))
            else 0)
    ensures depth == 0 || |GetAllValidMoves(b, SideToMove(maximizing))| == 0 ==>
      Minimax(b, depth, alpha, beta, maximizing, maxDepth) == FullMinimax(b, depth, maximizing, maxDepth)
  {
  }

  /** A mate nearer the root (more remaining depth) scores further from 0. */
  lemma MateScoreNearerIsStronger(maxDepth: int, d1: int, d2: int)
    requires 0 <= d1 < d2 <= maxDepth < 10000
    ensures MateScore(true, maxDepth, d2) < MateScore(true, maxDepth, d1) < 0
    ensures 0 < MateScore(false, maxDepth, d1) < MateScore(false, maxDepth, d2)
  {
  }

  /** One level of both searches at an inner node, with the child depth
      named `d`. */
  lemma {:induction false} SearchStep(b: Board, depth: nat, alpha: ExtInt, beta: ExtInt, maximizing: bool, maxDepth: int)
    requires depth > 0
    requires |GetAllValidMoves(b, SideToMove(maximizing))| > 0
    ensures var kids := Children(b, GetAllValidMoves(b, SideToMove(maximizing)));
      if maximizing then
        && Minimax(b, depth, alpha, beta, maximizing, maxDepth) == MaxLoop(kids, ChildDepth(depth), alpha, beta, NegInf, maxDepth).n
        && FullMinimax(b, depth, maximizing, maxDepth) == FullMax(kids, ChildDepth(depth), maxDepth).n
      else
        && Minimax(b, depth, alpha, beta, maximizing, maxDepth) == MinLoop(kids, ChildDepth(depth), alpha, beta, PosInf, maxDepth).n
        && FullMinimax(b, depth, maximizing, maxDepth) == FullMin(kids, ChildDepth(depth), maxDepth).n
  {
  }

  /** Alpha-beta soundness: inside a non-empty window the pruned search and
      the full search agree once both are clamped to the window. */
  lemma {:induction false} MinimaxWindow(b: Board, depth: nat, alpha: ExtInt, beta: ExtInt, maximizing: bool, maxDepth: int)
    requires Lt(alpha, beta)
    ensures Clamp(Fin(Minimax(b, depth, alpha, beta, maximizing, maxDepth)), alpha, beta)
         == Clamp(Fin(FullMinimax(b, depth, maximizing, maxDepth)), alpha, beta)
    decreases depth, 1
  {
    var moves := GetAllValidMoves(b, SideToMove(maximizing));
    if depth == 0 || |moves| == 0 {
      MinimaxTerminal(b, depth, alpha, beta, maximizing, maxDepth);
    } else {
      var kids := Children(b, moves);
      SearchStep(b, depth, alpha, beta, maximizing, maxDepth);
      if maximizing {
        MaxLoopWindow(kids, ChildDepth(depth), alpha, beta, NegInf, maxDepth);
      } else {
        MinLoopWindow(kids, ChildDepth(depth), alpha, beta, PosInf, maxDepth);
      }
    }
  }

  /** The maximizing loop is sound for its window: the pruned loop and the
      full maximum (joined with the running best) agree once clamped. */
  lemma {:induction false} MaxLoopWindow(kids: seq<Board>, childDepth: nat, alpha: ExtInt, beta: ExtInt, best: ExtInt, maxDepth: int)
    requires !best.PosInf?
    requires Lt(alpha, beta) && Le(best, alpha)
    ensures Clamp(MaxLoop(kids, childDepth, alpha, beta, best, maxDepth), alpha, beta)
         == Clamp(Max(best, FullMax(kids, childDepth, maxDepth)), alpha, beta)
    decreases childDepth, 2, |kids|
  {
    if |kids| > 0 {
      var s := Fin(Minimax(kids[0], childDepth, alpha, beta, false, maxDepth));
      var t := Fin(FullMinimax(kids[0], childDepth, false, maxDepth));
      var rest := FullMax(kids[1..], childDepth, maxDepth);
      var r := MaxLoop(kids, childDepth, alpha, beta, best, maxDepth);
      MinimaxWindow(kids[0], childDepth, alpha, beta, false, maxDepth);
      if !Le(beta, Max(alpha, s)) {
        MaxLoopContinues(alpha, beta, best, s);
        MaxLoopWindow(kids[1..], childDepth, Max(alpha, s), beta, Max(best, s), maxDepth);
      }
      MaxLoopStep(alpha, beta, best, s, t, rest, r);
    }
  }

  /** The mirror image of `MaxLoopWindow` for the minimizing loop. */
  lemma {:induction false} MinLoopWindow(kids: seq<Board>, childDepth: nat, alpha: ExtInt, beta: ExtInt, best: ExtInt, maxDepth: int)
    requires !best.NegInf?
    requires Lt(alpha, beta) && Le(beta, best)
    ensures Clamp(MinLoop(kids, childDepth, alpha, beta, best, maxDepth), alpha, beta)
         == Clamp(Min(best, FullMin(kids, childDepth, maxDepth)), alpha, beta)
    decreases childDepth, 2, |kids|
  {
    if |kids| > 0 {
      var s := Fin(Minimax(kids[0], childDepth, alpha, beta, true, maxDepth));
      var t := Fin(FullMinimax(kids[0], childDepth, true, maxDepth));
      var rest := FullMin(kids[1..], childDepth, maxDepth);
      var r := MinLoop(kids, childDepth, alpha, beta, best, maxDepth);
      MinimaxWindow(kids[0], childDepth, alpha, beta, true, maxDepth);
      if !Le(Min(beta, s), alpha) {
        MinLoopContinues(alpha, beta, best, s);
        MinLoopWindow(kids[1..], childDepth, alpha, Min(beta, s), Min(best, s), maxDepth);
      }
      MinLoopStep(alpha, beta, best, s, t, rest, r);
    }
  }

  /** Called with the full window, as the root does, alpha-beta returns exactly
      the unpruned minimax value. */
  lemma AlphaBetaMatchesMinimax(b: Board, depth: nat, maximizing: bool, maxDepth: int)
    ensures Minimax(b, depth, NegInf, PosInf, maximizing, maxDepth) == FullMinimax(b, depth, maximizing, maxDepth)
  {
    MinimaxWindow(b, depth, NegInf, PosInf, maximizing, maxDepth);
    ClampFullWindow(Fin(Minimax(b, depth, NegInf, PosInf, maximizing, maxDepth)));
    ClampFullWindow(Fin(FullMinimax(b, depth, maximizing, maxDepth)));
  }

  // ---------------------------------------------------------------------
  // Root move choice

  /** The score the root gives a move: the child position searched to
      `maxDepth - 1` with the full window, maximizing exactly when the root
      colour is black. */
  function RootScore(ai: ChessAI, b: Board, color: Color, m: Move): int
    requires ai.maxDepth >= 1 && MoveInBounds(m)
  {
    Minimax(MakeMove(b, m), ai.maxDepth - 1, NegInf, PosInf, color == Black, ai.maxDepth)
  }

  /** The scores of `moves` as the root computes them, in order. */
  function RootScores(ai: ChessAI, b: Board, color: Color, moves: seq<Move>): (scores: seq<int>)
    requires ai.maxDepth >= 1
    requires forall m :: m in moves ==> MoveInBounds(m)
    ensures |scores| == |moves|
    ensures forall i :: 0 <= i < |moves| ==> scores[i] == RootScore(ai, b, color, moves[i])
  {
    seq(|moves|, i requires 0 <= i < |moves| => RootScore(ai, b, color, moves[i]))
  }

  /** The score of `m` from the unpruned search. */
  function UnprunedRootScore(ai: ChessAI, b: Board, color: Color, m: Move): int
    requires ai.maxDepth >= 1 && MoveInBounds(m)
  {
    FullMinimax(MakeMove(b, m), ai.maxDepth - 1, color == Black, ai.maxDepth)
  }

  /** The same scores from the unpruned search. */
  function UnprunedRootScores(ai: ChessAI, b: Board, color: Color, moves: seq<Move>): (scores: seq<int>)
    requires ai.maxDepth >= 1
    requires forall m :: m in moves ==> MoveInBounds(m)
    ensures |scores| == |moves|
    ensures forall i :: 0 <= i < |moves| ==> scores[i] == UnprunedRootScore(ai, b, color, moves[i])
  {
    seq(|moves|, i requires 0 <= i < |moves| => UnprunedRootScore(ai, b, color, moves[i]))
  }

  /** A root child is searched with the full window, so pruning does not
      change its score. */
  lemma RootScoreUnpruned(ai: ChessAI, b: Board, color: Color, m: Move)
    requires ai.maxDepth >= 1 && MoveInBounds(m)
    ensures RootScore(ai, b, color, m) == UnprunedRootScore(ai, b, color, m)
  {
    var d: nat := ai.maxDepth - 1;
    AlphaBetaMatchesMinimax(MakeMove(b, m), d, color == Black, ai.maxDepth);
  }

  /** Pruning does not change any root score. */
  lemma RootScoresUnpruned(ai: ChessAI, b: Board, color: Color, moves: seq<Move>)
    requires ai.maxDepth >= 1
    requires forall m :: m in moves ==> MoveInBounds(m)
    ensures RootScores(ai, b, color, moves) == UnprunedRootScores(ai, b, color, moves)
  {
    var pruned := RootScores(ai, b, color, moves);
    var full := UnprunedRootScores(ai, b, color, moves);
    forall i | 0 <= i < |moves|
      ensures pruned[i] == full[i]
    {
      assert moves[i] in moves;
      RootScoreUnpruned(ai, b, color, moves[i]);
    }
  }

  /** White prefers higher scores, black lower ones, strictly. */
  predicate Better(color: Color, s: int, t: int)
  {
    if color == White then s > t else s < t
  }

  /** `k` is the first index holding a best score for `color`: nothing beats
      it, and everything before it is strictly worse. */
  predicate IsFirstBest(scores: seq<int>, color: Color, k: int)
  {
    0 <= k < |scores|
    && (forall j :: 0 <= j < |scores| ==> !Better(color, scores[j], scores[k]))
    && (forall j :: 0 <= j < k ==> Better(color, scores[k], scores[j]))
  }

  /** There is at most one first best index. */
  lemma FirstBestUnique(scores: seq<int>, color: Color, k1: int, k2: int)
    requires IsFirstBest(scores, color, k1) && IsFirstBest(scores, color, k2)
    ensures k1 == k2
  {
    var s1, s2 := scores[k1], scores[k2];
    assert !Better(color, s2, s1) && !Better(color, s1, s2);
    assert k1 < k2 ==> Better(color, s2, s1);
    assert k2 < k1 ==> Better(color, s1, s2);
  }

  /** The root loop over the scores: the running best starts at -infinity
      for white and +infinity for black and is replaced only by a strictly
      better score, so the first best index wins. */
  method FirstBestIndex(scores: seq<int>, color: Color) returns (k: nat)
    requires |scores| > 0
    ensures IsFirstBest(scores, color, k)
  {
    var bestScore: ExtInt := if color == White then NegInf else PosInf;
    k := 0;
    for i := 0 to |scores|
      invariant i == 0 ==> bestScore == (if color == White then NegInf else PosInf)
      invariant i > 0 ==> k < i && bestScore == Fin(scores[k])
      invariant i > 0 ==> IsFirstBest(scores[..i], color, k)
    {
      var score := scores[i];
      if color == White && Lt(bestScore, Fin(score)) {
        bestScore := Fin(score);
        k := i;
      } else if color == Black && Lt(Fin(score), bestScore) {
        bestScore := Fin(score);
        k := i;
      }
    }
    assert scores[..|scores|] == scores;
  }

  /** The root: no move when there are no legal moves; otherwise the legal
      move (in generation order) that first reaches the best score for
      `color`, which is also the first best under the unpruned search. */
  method GetBestMove(ai: ChessAI, b: Board, color: Color) returns (best: Option<Move>)
    requires ai.maxDepth >= 1
    ensures best.None? <==> |GetAllValidMoves(b, color)| == 0
    ensures best.Some? ==> IsLegal(b, color, best.value)
    ensures best.Some? ==>
      exists k :: IsFirstBest(RootScores(ai, b, color, GetAllValidMoves(b, color)), color, k)
             && best.value == GetAllValidMoves(b, color)[k]
    ensures best.Some? ==>
      exists k :: IsFirstBest(UnprunedRootScores(ai, b, color, GetAllValidMoves(b, color)), color, k)
             && best.value == GetAllValidMoves(b, color)[k]
  {
    var moves := GetAllValidMoves(b, color);
    if |moves| == 0 {
      return None;
    }
    var scores := RootScores(ai, b, color, moves);
    var k := FirstBestIndex(scores, color);
    best := Some(moves[k]);
    RootScoresUnpruned(ai, b, color, moves);
  }
}
