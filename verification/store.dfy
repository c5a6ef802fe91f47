/** The game store: the state the UI shows and its transitions (new game,
    square clicks, committing a move, undo, the clock tick and the small
    settings actions), each as a pure function from state to state. */
module ChessStore {
  import opened ChessTypes
  import ChessEngine
  import AI

  datatype GameMode = Single | Multi

  /** Remaining seconds per side, whether the clock runs, and whose clock. */
  datatype TimerState = TimerState(whiteTime: int, blackTime: int, isRunning: bool, currentTurn: Color)

  datatype GameState = GameState(
    board: Board,
    currentPlayer: Color,
    moveHistory: seq<Move>,
    selectedSquare: Option<Pos>,
    possibleMoves: seq<Pos>,
    isCheck: bool,
    isCheckmate: bool,
    isStalemate: bool,
    isDraw: bool,
    gameMode: GameMode,
    aiDifficulty: AI.Difficulty,
    timer: TimerState,
    ai: Option<AI.ChessAI>)

  /** Ten minutes each, paused, white's clock. */
  const InitialTimer := TimerState(600, 600, false, White)

  // ---------------------------------------------------------------------
  // Invariants

  /** `p` holds a piece of colour `c`. */
  predicate Owns(b: Board, p: Pos, c: Color)
    requires ChessEngine.IsValidPosition(p)
  {
    ChessEngine.At(b, p).Some? && ChessEngine.At(b, p).value.color == c
  }

  /** The board reached by playing `h` from `b`. */
  function ReplayOn(b: Board, h: seq<Move>): Board
    requires ChessEngine.HistoryInBounds(h)
  {
    if |h| == 0 then b
    else ChessEngine.MakeMove(ReplayOn(b, h[..|h| - 1]), h[|h| - 1])
  }

  /** The board reached by playing `h` from the initial position. */
  function Replay(h: seq<Move>): Board
    requires ChessEngine.HistoryInBounds(h)
  {
    ReplayOn(ChessEngine.InitializeBoard(), h)
  }

  /** Colour `c` after `n` flips: white moves after an even number of
      moves. */
  function Flipped(c: Color, n: nat): Color
  {
    if n % 2 == 0 then c else Opponent(c)
  }

  /** The board is the replay of the history and the player to move matches
      its parity; the selection, when there is one, is an own piece whose
      targets are the ones computed for it. */
  predicate Consistent(s: GameState)
  {
    && ChessEngine.HistoryInBounds(s.moveHistory)
    && s.board == Replay(s.moveHistory)
    && s.currentPlayer == Flipped(White, |s.moveHistory|)
    && SelectionValid(s)
  }

  predicate SelectionValid(s: GameState)
  {
    match s.selectedSquare
    case None => s.possibleMoves == []
    case Some(sel) =>
      && ChessEngine.IsValidPosition(sel)
      && Owns(s.board, sel, s.currentPlayer)
      && s.possibleMoves == SafeTargets(s.board, s.currentPlayer, sel, ChessEngine.At(s.board, sel).value)
  }

  /** The clock runs for the side to move. */
  predicate TurnSynced(s: GameState)
  {
    s.timer.currentTurn == s.currentPlayer
  }

  /** The check flags describe the position for the side to move. */
  predicate FlagsCurrent(s: GameState)
  {
    && s.isCheck == ChessEngine.IsInCheck(s.board, s.currentPlayer)
    && s.isCheckmate == ChessEngine.IsCheckmate(s.board, s.currentPlayer)
    && s.isStalemate == ChessEngine.IsStalemate(s.board, s.currentPlayer)
  }

  // ---------------------------------------------------------------------
  // New game

  /** A fresh game: initial board, white to move, nothing selected, an AI of
      the chosen difficulty in single mode only, the clock reset. */
  function InitializeGame(mode: GameMode, difficulty: AI.Difficulty): (s: GameState)
    ensures Consistent(s) && TurnSynced(s)
    ensures s.moveHistory == [] && s.currentPlayer == White && s.timer == InitialTimer
    ensures s.ai.Some? <==> mode == Single
    ensures s.ai.Some? ==> s.ai.value.maxDepth == 2 + AI.DifficultyRank(difficulty)
    ensures s.board == ChessEngine.InitializeBoard()
    ensures s.gameMode == mode && s.aiDifficulty == difficulty
    ensures s.selectedSquare.None? && s.possibleMoves == []
    ensures !s.isCheck && !s.isCheckmate && !s.isStalemate && !s.isDraw
  {
    var b := ChessEngine.InitializeBoard();
    GameState(b, White, [], None, [], false, false, false, false, mode, difficulty,
      InitialTimer, if mode == Single then Some(AI.NewChessAI(difficulty)) else None)
  }

  // ---------------------------------------------------------------------
  // Selection

  /** The destinations from `pos` that do not leave `c`'s king attacked, in
      generation order. */
  function SafeTargets(b: Board, c: Color, pos: Pos, piece: Piece): (r: seq<Pos>)
    requires ChessEngine.IsValidPosition(pos)
  {
    Safe(b, c, pos, piece, ChessEngine.GetPossibleMoves(b, piece, pos))
  }

  /** The king-safety filter of the selection, over a list of targets. */
  function Safe(b: Board, c: Color, pos: Pos, piece: Piece, tos: seq<Pos>): (r: seq<Pos>)
    requires ChessEngine.IsValidPosition(pos)
    requires forall t :: t in tos ==> ChessEngine.IsValidPosition(t)
    ensures forall t :: t in r <==>
      (t in tos && !ChessEngine.IsInCheck(ChessEngine.MakeMove(b, ChessEngine.MoveTo(b, pos, t, piece)), c))
  {
    if |tos| == 0 then []
    else
      var t := tos[0];
      assert t in tos;
      var rest := Safe(b, c, pos, piece, tos[1..]);
      if !ChessEngine.IsInCheck(ChessEngine.MakeMove(b, ChessEngine.MoveTo(b, pos, t, piece)), c) then [t] + rest
      else rest
  }

  /** A highlighted target of an own piece is a legal move for its side. */
  lemma SafeTargetIsLegal(b: Board, c: Color, pos: Pos, t: Pos)
    requires ChessEngine.IsValidPosition(pos) && Owns(b, pos, c)
    requires t in SafeTargets(b, c, pos, ChessEngine.At(b, pos).value)
    ensures ChessEngine.IsLegal(b, c, ChessEngine.MoveTo(b, pos, t, ChessEngine.At(b, pos).value))
  {
  }

  /** The highlighted targets of an own piece are exactly the destinations of
      the legal moves that start on its square. */
  lemma SafeTargetsAreLegalDestinations(b: Board, c: Color, pos: Pos, t: Pos)
    requires ChessEngine.IsValidPosition(pos) && Owns(b, pos, c)
    ensures t in SafeTargets(b, c, pos, ChessEngine.At(b, pos).value)
        <==> exists m :: m in ChessEngine.GetAllValidMoves(b, c) && m.from == pos && m.to == t
  {
    var piece := ChessEngine.At(b, pos).value;
    if t in SafeTargets(b, c, pos, piece) {
      SafeTargetIsLegal(b, c, pos, t);
      assert ChessEngine.MoveTo(b, pos, t, piece) in ChessEngine.GetAllValidMoves(b, c);
    }
  }

  /** A click: with nothing selected, an own piece is selected with its safe
      targets and any other square is ignored; clicking the selected square
      deselects; with a piece selected, a highlighted target commits the
      move, another own piece is selected instead, and anything else clears
      the selection. */
  function SelectSquare(s: GameState, pos: Pos): (r: GameState)
    requires ChessEngine.IsValidPosition(pos)
    requires s.selectedSquare.Some? ==> ChessEngine.IsValidPosition(s.selectedSquare.value)
    ensures r.selectedSquare.Some? ==> r.selectedSquare == Some(pos) || r == s
    ensures r.moveHistory == s.moveHistory ==> r.board == s.board && r.currentPlayer == s.currentPlayer
    ensures r.moveHistory != s.moveHistory ==>
      && |r.moveHistory| == |s.moveHistory| + 1 && r.moveHistory[..|s.moveHistory|] == s.moveHistory
      && r.currentPlayer == Opponent(s.currentPlayer) && r.selectedSquare.None?
  {
    var piece := ChessEngine.At(s.board, pos);
    var select := s.(selectedSquare := Some(pos),
                     possibleMoves := if piece.Some? then SafeTargets(s.board, s.currentPlayer, pos, piece.value) else []);
    match s.selectedSquare
    case None =>
      if Owns(s.board, pos, s.currentPlayer) then select else s
    case Some(sel) =>
      if sel == pos then s.(selectedSquare := None, possibleMoves := [])
      else if ChessEngine.At(s.board, sel).None? then s
      else if pos in s.possibleMoves then MakeMove(s, sel, pos)
      else if Owns(s.board, pos, s.currentPlayer) then select
      else s.(selectedSquare := None, possibleMoves := [])
  }

  // ---------------------------------------------------------------------
  // Committing a move

  /** Plays `from`-`to` for the side to move if `from` holds one of its
      pieces (legality is not checked here): the move records the piece and
      whatever stood on `to`, the player flips, the selection clears, the
      clock switches, and the flags are computed for the new side to move.
      Otherwise nothing changes. */
  function MakeMove(s: GameState, from: Pos, to: Pos): (r: GameState)
    requires ChessEngine.IsValidPosition(from) && ChessEngine.IsValidPosition(to)
    ensures !Owns(s.board, from, s.currentPlayer) ==> r == s
    ensures Owns(s.board, from, s.currentPlayer) ==>
      var m := Move(from, to, ChessEngine.At(s.board, from).value, ChessEngine.At(s.board, to));
      && r.moveHistory == s.moveHistory + [m]
      && r.board == ChessEngine.MakeMove(s.board, m)
      && r.currentPlayer == Opponent(s.currentPlayer)
      && r.selectedSquare.None? && r.possibleMoves == []
      && TurnSynced(r) && FlagsCurrent(r)
      && r.timer == s.timer.(currentTurn := r.currentPlayer)
      && r.gameMode == s.gameMode && r.aiDifficulty == s.aiDifficulty && r.ai == s.ai && r.isDraw == s.isDraw
  {
    var piece := ChessEngine.At(s.board, from);
    if piece.None? || piece.value.color != s.currentPlayer then s
    else
      var m := Move(from, to, piece.value, ChessEngine.At(s.board, to));
      var b := ChessEngine.MakeMove(s.board, m);
      var next := Opponent(s.currentPlayer);
      s.(board := b, currentPlayer := next, moveHistory := s.moveHistory + [m],
         selectedSquare := None, possibleMoves := [],
         isCheck := ChessEngine.IsInCheck(b, next),
         isCheckmate := ChessEngine.IsCheckmate(b, next),
         isStalemate := ChessEngine.IsStalemate(b, next),
         timer := s.timer.(currentTurn := next))
  }

  lemma ReplaySnoc(b: Board, h: seq<Move>, m: Move)
    requires ChessEngine.HistoryInBounds(h) && ChessEngine.MoveInBounds(m)
    ensures ChessEngine.HistoryInBounds(h + [m])
    ensures ReplayOn(b, h + [m]) == ChessEngine.MakeMove(ReplayOn(b, h), m)
  {
    assert (h + [m])[..|h|] == h;
  }

  /** Committing a move keeps the board equal to the replayed history and
      the side to move equal to its parity, and keeps the clock on the side
      to move. */
  lemma MakeMovePreservesConsistency(s: GameState, from: Pos, to: Pos)
    requires ChessEngine.IsValidPosition(from) && ChessEngine.IsValidPosition(to)
    requires Consistent(s)
    ensures Consistent(MakeMove(s, from, to))
    ensures TurnSynced(s) ==> TurnSynced(MakeMove(s, from, to))
  {
    if Owns(s.board, from, s.currentPlayer) {
      var m := Move(from, to, ChessEngine.At(s.board, from).value, ChessEngine.At(s.board, to));
      ReplaySnoc(ChessEngine.InitializeBoard(), s.moveHistory, m);
      FlippedStep(White, |s.moveHistory|);
    }
  }

  lemma SelectingKeepsConsistency(s: GameState, pos: Pos)
    requires ChessEngine.IsValidPosition(pos) && Owns(s.board, pos, s.currentPlayer)
    requires Consistent(s)
    ensures Consistent(s.(selectedSquare := Some(pos),
      possibleMoves := SafeTargets(s.board, s.currentPlayer, pos, ChessEngine.At(s.board, pos).value)))
  {
  }

  lemma ClearingKeepsConsistency(s: GameState)
    requires Consistent(s)
    ensures Consistent(s.(selectedSquare := None, possibleMoves := []))
  {
  }

  /** Clicks keep the state consistent. */
  lemma SelectSquarePreservesConsistency(s: GameState, pos: Pos)
    requires ChessEngine.IsValidPosition(pos)
    requires Consistent(s)
    ensures Consistent(SelectSquare(s, pos))
  {
    var r := SelectSquare(s, pos);
    var own := Owns(s.board, pos, s.currentPlayer);
    if own {
      SelectingKeepsConsistency(s, pos);
    }
    ClearingKeepsConsistency(s);
    match s.selectedSquare
    case None =>
    case Some(sel) =>
      if sel != pos && ChessEngine.At(s.board, sel).Some? && pos in s.possibleMoves {
        MakeMovePreservesConsistency(s, sel, pos);
      }
  }

  /** A click that adds to the history adds a legal move for the side that
      was to move. */
  lemma SelectSquarePlaysLegalMoves(s: GameState, pos: Pos)
    requires ChessEngine.IsValidPosition(pos)
    requires Consistent(s)
    ensures SelectSquare(s, pos).moveHistory == s.moveHistory
         || exists m :: SelectSquare(s, pos).moveHistory == s.moveHistory + [m]
                     && ChessEngine.IsLegal(s.board, s.currentPlayer, m)
  {
    if s.selectedSquare.Some? {
      var sel := s.selectedSquare.value;
      if sel != pos && ChessEngine.At(s.board, sel).Some? && pos in s.possibleMoves {
        var piece := ChessEngine.At(s.board, sel).value;
        var m := ChessEngine.MoveTo(s.board, sel, pos, piece);
        SafeTargetIsLegal(s.board, s.currentPlayer, sel, pos);
        assert SelectSquare(s, pos) == MakeMove(s, sel, pos);
        assert MakeMove(s, sel, pos).moveHistory == s.moveHistory + [m];
      }
    }
  }

  /** The click table for a consistent state. With nothing selected, a click
      on an own piece selects it with its safe targets and any other click
      changes nothing. Clicking the selected square deselects it. With
      another square selected, the click plays a move exactly when the
      clicked square is the destination of a legal move from the selected
      piece; otherwise an own piece is selected instead, and any other
      square clears the selection. */
  lemma SelectSquareCases(s: GameState, pos: Pos)
    requires ChessEngine.IsValidPosition(pos)
    requires Consistent(s)
    ensures var r := SelectSquare(s, pos);
      var selectPos := s.(selectedSquare := Some(pos),
        possibleMoves := if Owns(s.board, pos, s.currentPlayer)
          then SafeTargets(s.board, s.currentPlayer, pos, ChessEngine.At(s.board, pos).value) else []);
      var cleared := s.(selectedSquare := None, possibleMoves := []);
      && (s.selectedSquare.None? && Owns(s.board, pos, s.currentPlayer) ==> r == selectPos)
      && (s.selectedSquare.None? && !Owns(s.board, pos, s.currentPlayer) ==> r == s)
      && (s.selectedSquare == Some(pos) ==> r == cleared)
      && (s.selectedSquare.Some? && s.selectedSquare != Some(pos) ==>
            var sel := s.selectedSquare.value;
            var legal := exists m :: m in ChessEngine.GetAllValidMoves(s.board, s.currentPlayer) && m.from == sel && m.to == pos;
            && (legal ==> r == MakeMove(s, sel, pos) && r.moveHistory != s.moveHistory)
            && (!legal && Owns(s.board, pos, s.currentPlayer) ==> r == selectPos)
            && (!legal && !Owns(s.board, pos, s.currentPlayer) ==> r == cleared))
  {
    if s.selectedSquare.Some? && s.selectedSquare != Some(pos) {
      var sel := s.selectedSquare.value;
      SafeTargetsAreLegalDestinations(s.board, s.currentPlayer, sel, pos);
      assert |MakeMove(s, sel, pos).moveHistory| == |s.moveHistory| + 1;
    }
  }

  // ---------------------------------------------------------------------
  // Undo

  /** The source's replay loop: play each move in turn, flipping the side
      to move after each. */
  function ReplayFrom(b: Board, c: Color, h: seq<Move>): (Board, Color)
    requires ChessEngine.HistoryInBounds(h)
    decreases |h|
  {
    if |h| == 0 then (b, c)
    else ReplayFrom(ChessEngine.MakeMove(b, h[0]), Opponent(c), h[1..])
  }

  lemma {:induction false} ReplayFromSnoc(b: Board, c: Color, h: seq<Move>, m: Move)
    requires ChessEngine.HistoryInBounds(h) && ChessEngine.MoveInBounds(m)
    ensures ChessEngine.HistoryInBounds(h + [m])
    ensures ReplayFrom(b, c, h + [m])
         == (ChessEngine.MakeMove(ReplayFrom(b, c, h).0, m), Opponent(ReplayFrom(b, c, h).1))
    decreases |h|
  {
    if |h| > 0 {
      assert (h + [m])[1..] == h[1..] + [m];
      ReplayFromSnoc(ChessEngine.MakeMove(b, h[0]), Opponent(c), h[1..], m);
    }
  }

  lemma FlippedStep(c: Color, n: nat)
    ensures Flipped(c, n + 1) == Opponent(Flipped(c, n))
  {
    if n % 2 == 0 {
      assert (n + 1) % 2 == 1;
    } else {
      assert (n + 1) % 2 == 0;
      assert Opponent(Opponent(c)) == c;
    }
  }

  /** The loop computes the replayed board and flips the side to move once
      per move. */
  lemma {:induction false} ReplayFromMatches(b: Board, c: Color, h: seq<Move>)
    requires ChessEngine.HistoryInBounds(h)
    ensures ReplayFrom(b, c, h) == (ReplayOn(b, h), Flipped(c, |h|))
    decreases |h|
  {
    if |h| > 0 {
      var h' := h[..|h| - 1];
      var m := h[|h| - 1];
      assert h' + [m] == h;
      assert ChessEngine.HistoryInBounds(h');
      ReplayFromMatches(b, c, h');
      ReplayFromSnoc(b, c, h', m);
      assert ReplayOn(b, h) == ChessEngine.MakeMove(ReplayOn(b, h'), m);
      FlippedStep(c, |h'|);
    }
  }

  /** The history `UndoMove` keeps: one move shorter, or two in single mode
      when at least two moves were played. */
  function UndoneHistory(s: GameState): (h: seq<Move>)
    requires |s.moveHistory| > 0
    ensures |h| == if s.gameMode == Single && |s.moveHistory| >= 2 then |s.moveHistory| - 2 else |s.moveHistory| - 1
    ensures h == s.moveHistory[..|h|]
  {
    var h1 := s.moveHistory[..|s.moveHistory| - 1];
    if s.gameMode == Single && |h1| > 0 then h1[..|h1| - 1] else h1
  }

  /** Undo as written: drops the last move (two in single mode, when there
      are two), rebuilds the board by replaying the rest from the initial
      position, recomputes the flags and clears the selection. The clock is
      left as it was. */
  function UndoMove(s: GameState): (r: GameState)
    requires ChessEngine.HistoryInBounds(s.moveHistory)
    ensures |s.moveHistory| == 0 ==> r == s
    ensures |s.moveHistory| > 0 ==>
      && r.moveHistory == UndoneHistory(s)
      && ChessEngine.HistoryInBounds(r.moveHistory)
      && r.board == Replay(r.moveHistory)
      && r.currentPlayer == Flipped(White, |r.moveHistory|)
      && r.selectedSquare.None? && r.possibleMoves == []
      && FlagsCurrent(r)
      && r.timer == s.timer
      && r.gameMode == s.gameMode && r.aiDifficulty == s.aiDifficulty && r.ai == s.ai && r.isDraw == s.isDraw
  {
    if |s.moveHistory| == 0 then s
    else
      var h := UndoneHistory(s);
      assert ChessEngine.HistoryInBounds(h);
      ReplayFromMatches(ChessEngine.InitializeBoard(), White, h);
      var (b, c) := ReplayFrom(ChessEngine.InitializeBoard(), White, h);
      s.(board := b, currentPlayer := c, moveHistory := h, selectedSquare := None, possibleMoves := [],
         isCheck := ChessEngine.IsInCheck(b, c),
         isCheckmate := ChessEngine.IsCheckmate(b, c),
         isStalemate := ChessEngine.IsStalemate(b, c))
  }

  /** Undo keeps the state consistent. */
  lemma UndoMovePreservesConsistency(s: GameState)
    requires Consistent(s)
    ensures Consistent(UndoMove(s))
  {
  }

  /** Undo does not move the clock back: in two-player mode, after white's
      first move and an undo, white is to move while black's clock runs. */
  lemma UndoDesyncsClock()
    ensures var s0 := InitializeGame(Multi, AI.Medium);
      var s1 := MakeMove(s0, Pos(6, 4), Pos(4, 4));
      var s2 := UndoMove(s1);
      TurnSynced(s1) && s2.currentPlayer == White && s2.timer.currentTurn == Black && !TurnSynced(s2)
  {
    var s0 := InitializeGame(Multi, AI.Medium);
    assert Owns(s0.board, Pos(6, 4), White);
    var s1 := MakeMove(s0, Pos(6, 4), Pos(4, 4));
    assert |s1.moveHistory| == 1;
    assert UndoneHistory(s1) == [];
  }

  /** Undo with the clock moved back to the restored side to move: it differs
      from the undo as written only in the clock's turn, and an empty history
      still leaves everything alone. */
  function UndoMoveSynced(s: GameState): (r: GameState)
    requires ChessEngine.HistoryInBounds(s.moveHistory)
    ensures |s.moveHistory| == 0 ==> r == s
    ensures |s.moveHistory| > 0 ==> TurnSynced(r)
    ensures |s.moveHistory| > 0 ==> r.moveHistory == UndoneHistory(s) && r.board == Replay(r.moveHistory)
    ensures |s.moveHistory| > 0 ==>
      r.(timer := s.timer) == UndoMove(s) && r.timer == s.timer.(currentTurn := r.currentPlayer)
  {
    if |s.moveHistory| == 0 then s
    else
      var r := UndoMove(s);
      r.(timer := r.timer.(currentTurn := r.currentPlayer))
  }

  /** The corrected undo keeps the state consistent and the clock on the
      side to move. */
  lemma UndoMoveSyncedPreservesInvariants(s: GameState)
    requires Consistent(s) && TurnSynced(s)
    ensures Consistent(UndoMoveSynced(s)) && TurnSynced(UndoMoveSynced(s))
  {
  }

  // ---------------------------------------------------------------------
  // Clock

  /** One second of the running clock: the side on turn loses a second,
      never going below 0, and the clock pauses when that side reaches 0. */
  function Tick(t: TimerState): (r: TimerState)
    ensures !t.isRunning ==> r == t
    ensures r.currentTurn == t.currentTurn
    ensures t.isRunning && t.currentTurn == White ==>
      r.whiteTime == (if t.whiteTime > 0 then t.whiteTime - 1 else 0) && r.blackTime == t.blackTime
      && (r.isRunning <==> r.whiteTime != 0)
    ensures t.isRunning && t.currentTurn == Black ==>
      r.blackTime == (if t.blackTime > 0 then t.blackTime - 1 else 0) && r.whiteTime == t.whiteTime
      && (r.isRunning <==> r.blackTime != 0)
  {
    if !t.isRunning then t
    else if t.currentTurn == White then
      var w := if t.whiteTime - 1 > 0 then t.whiteTime - 1 else 0;
      t.(whiteTime := w, isRunning := !(w == 0))
    else
      var bl := if t.blackTime - 1 > 0 then t.blackTime - 1 else 0;
      t.(blackTime := bl, isRunning := !(bl == 0))
  }

  /** `n` firings of the one-second interval. A clock that starts at zero
      or more stays between zero and its start, the side on turn never
      changes, and a paused clock stays as it is. */
  function Ticks(t: TimerState, n: nat): (r: TimerState)
    ensures r.currentTurn == t.currentTurn
    ensures 0 <= t.whiteTime ==> 0 <= r.whiteTime <= t.whiteTime
    ensures 0 <= t.blackTime ==> 0 <= r.blackTime <= t.blackTime
    ensures !t.isRunning ==> r == t
  {
    if n == 0 then t else Tick(Ticks(t, n - 1))
  }

  /** After n >= 1 seconds from a running clock, the side on turn has
      max(0, time - n) left, the other side is untouched, and the clock
      still runs exactly when time > n. */
  lemma {:induction false} TicksWhite(t: TimerState, n: nat)
    requires t.isRunning && t.currentTurn == White && n >= 1
    ensures Ticks(t, n).currentTurn == White
    ensures Ticks(t, n).whiteTime == (if t.whiteTime > n then t.whiteTime - n else 0)
    ensures Ticks(t, n).blackTime == t.blackTime
    ensures Ticks(t, n).isRunning <==> t.whiteTime > n
    decreases n
  {
    if n == 1 {
      assert Ticks(t, 1) == Tick(t);
    } else {
      TicksWhite(t, n - 1);
      assert Ticks(t, n) == Tick(Ticks(t, n - 1));
    }
  }

  lemma {:induction false} TicksBlack(t: TimerState, n: nat)
    requires t.isRunning && t.currentTurn == Black && n >= 1
    ensures Ticks(t, n).currentTurn == Black
    ensures Ticks(t, n).blackTime == (if t.blackTime > n then t.blackTime - n else 0)
    ensures Ticks(t, n).whiteTime == t.whiteTime
    ensures Ticks(t, n).isRunning <==> t.blackTime > n
    decreases n
  {
    if n == 1 {
      assert Ticks(t, 1) == Tick(t);
    } else {
      TicksBlack(t, n - 1);
      assert Ticks(t, n) == Tick(Ticks(t, n - 1));
    }
  }

  /** The tick as the store applies it. */
  function TickState(s: GameState): (r: GameState)
    ensures r.timer == Tick(s.timer)
    ensures r.(timer := s.timer) == s
  {
    s.(timer := Tick(s.timer))
  }

  // ---------------------------------------------------------------------
  // Settings

  function StartTimer(s: GameState): (r: GameState)
    ensures r.timer.isRunning && r.timer.(isRunning := s.timer.isRunning) == s.timer
    ensures r.(timer := s.timer) == s
  {
    s.(timer := s.timer.(isRunning := true))
  }

  function PauseTimer(s: GameState): (r: GameState)
    ensures !r.timer.isRunning && r.timer.(isRunning := s.timer.isRunning) == s.timer
    ensures r.(timer := s.timer) == s
  {
    s.(timer := s.timer.(isRunning := false))
  }

  function ResetTimer(s: GameState): (r: GameState)
    ensures r.timer == InitialTimer && r.(timer := s.timer) == s
  {
    s.(timer := InitialTimer)
  }

  /** A new game with the current mode and difficulty. */
  function ResetGame(s: GameState): (r: GameState)
    ensures Consistent(r) && TurnSynced(r) && r.moveHistory == []
    ensures r.gameMode == s.gameMode && r.aiDifficulty == s.aiDifficulty
    ensures r.board == ChessEngine.InitializeBoard() && r.currentPlayer == White
    ensures r.timer == InitialTimer && r.selectedSquare.None? && r.possibleMoves == []
    ensures !r.isCheck && !r.isCheckmate && !r.isStalemate && !r.isDraw
    ensures r.ai.Some? <==> s.gameMode == Single
    ensures r.ai.Some? ==> r.ai.value.maxDepth == 2 + AI.DifficultyRank(s.aiDifficulty)
  {
    InitializeGame(s.gameMode, s.aiDifficulty)
  }

  /** Switching mode starts a new game in that mode. */
  function SetGameMode(s: GameState, mode: GameMode): (r: GameState)
    ensures Consistent(r) && TurnSynced(r) && r.moveHistory == [] && r.gameMode == mode
    ensures r.ai.Some? <==> mode == Single
    ensures r.aiDifficulty == s.aiDifficulty && r.timer == InitialTimer
    ensures r.board == ChessEngine.InitializeBoard() && r.currentPlayer == White
    ensures r.selectedSquare.None? && r.possibleMoves == []
    ensures !r.isCheck && !r.isCheckmate && !r.isStalemate && !r.isDraw
  {
    ResetGame(s.(gameMode := mode))
  }

  /** Changing difficulty replaces the AI (even in two-player mode) and
      leaves the game itself alone. */
  function SetAIDifficulty(s: GameState, d: AI.Difficulty): (r: GameState)
    ensures r.aiDifficulty == d && r.ai.Some? && r.ai.value.maxDepth == 2 + AI.DifficultyRank(d)
    ensures r.(aiDifficulty := s.aiDifficulty, ai := s.ai) == s
    ensures Consistent(s) && TurnSynced(s) ==> Consistent(r) && TurnSynced(r)
  {
    s.(aiDifficulty := d, ai := Some(AI.NewChessAI(d)))
  }
}
