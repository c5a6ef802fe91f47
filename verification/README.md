# Chess game core in Dafny

This project models the logic core of a browser chess game written in
TypeScript. It covers:

- the rules engine: board setup, per-piece move generation, attack detection,
  check, legal-move enumeration, checkmate, stalemate and material evaluation;
- the computer player: its static evaluation and its alpha-beta minimax with
  root move choice;
- the game store: selecting a square, making a move, undo, resets, game-mode
  and difficulty changes, and the chess clock;
- the text formats the game uses: the move list, the clock display, the game
  status banner, the compact board string and move-history string sent to the
  language-model opponent, and the parser for that opponent's reply.

The board is an 8x8 sequence of optional pieces. Row 0 is Black's back rank
and column 0 is the a-file. Every operation is a pure function, or a method
with a loop, over immutable values. Store actions take a `GameState` record
and return the next one.

Modules:

- `ChessTypes` (types.dfy): colors, pieces, positions, moves and the board.
- `ChessEngine` (engine.dfy): the rules engine.
- `ExtScores` (scores.dfy): scores extended with -inf and +inf, used as the
  search window.
- `AI` (ai.dfy): evaluation, minimax with alpha-beta pruning, and the best
  root move.
- `Strings` (strings.dfy): decimal text, padding, join and split.
- `Squares` (squares.dfy): algebraic square names and their inverse.
- `MoveHistory` (move_history.dfy): the move-list notation and grouping into
  numbered rows.
- `GeminiClient` (gemini_client.dfy): reading a move out of the opponent's
  reply.
- `GeminiServer` (gemini_server.dfy): the board string and the move-history
  string sent in the prompt.
- `TimerView` (timer_view.dfy): the `m:ss` clock text, the low-time warning
  and the active-side highlight.
- `GameUI` (game_ui.dfy): the status banner.
- `ChessStore` (store.dfy): the game store and the clock tick.

## Model

| member | source | states |
|---|---|---|
| ChessEngine.InitializeBoard | client/src/lib/chess/ChessEngine.ts:4-23 | Black's pieces fill rows 0 and 1 and White's fill rows 6 and 7. The back ranks follow the rook, knight, bishop, queen, king, bishop, knight, rook order. Rows 2 to 5 are empty. No piece has moved. |
| ChessEngine.InitialPieceCounts | client/src/lib/chess/ChessEngine.ts:4-23 | The starting board holds 16 white pieces and 16 black pieces. |
| ChessEngine.InitialBoardSymmetric | client/src/lib/chess/ChessEngine.ts:4-23 | Flipping the starting board top to bottom and swapping colours gives the same board. |
| ChessEngine.GetPawnMoves | client/src/lib/chess/ChessEngine.ts:56-91 | The single step is offered exactly when the square in front is empty. The double step is offered exactly from the start row, with both squares empty. A diagonal is offered exactly when it holds an enemy piece. Nothing else is offered. |
| ChessEngine.GetRookMoves | client/src/lib/chess/ChessEngine.ts:93-115 | A square is a rook target exactly when it lies on the rook's file or rank, every square between them is empty, and it is on the board and empty or enemy-held. The slide stops at the first occupied square. |
| ChessEngine.GetKnightMoves | client/src/lib/chess/ChessEngine.ts:117-135 | A square is a knight target exactly when it is two squares away in one direction and one in the other, and is on the board and empty or enemy-held. |
| ChessEngine.GetBishopMoves | client/src/lib/chess/ChessEngine.ts:137-159 | A square is a bishop target exactly when it lies on one of the bishop's diagonals, every square between them is empty, and it is on the board and empty or enemy-held. |
| ChessEngine.GetQueenMoves | client/src/lib/chess/ChessEngine.ts:161-166 | The queen's targets are the rook targets followed by the bishop targets from its square. A square is a queen target exactly when a rook or a bishop there would reach it. |
| ChessEngine.GetKingMoves | client/src/lib/chess/ChessEngine.ts:168-187 | A square is a king target exactly when it is one of the eight adjacent squares and is on the board and empty or enemy-held. |
| ChessEngine.Ray | client/src/lib/chess/ChessEngine.ts:93-115 | A slide runs along its direction: every square before the last is empty. It stops at the first enemy piece, which it includes, or just before an own piece or the board's edge. |
| ChessEngine.RayMembers | client/src/lib/chess/ChessEngine.ts:93-115 | A square is on a ray exactly when it is on the board, empty or enemy-held, and every square before it along the direction is empty. |
| ChessEngine.SlideMembers | client/src/lib/chess/ChessEngine.ts:93-115 | The sliding targets over a list of directions are exactly the squares one of those rays reaches. |
| ChessEngine.Steps | client/src/lib/chess/ChessEngine.ts:117-135 | A step target is kept exactly when its offset lands on a square the piece may enter. |
| ChessEngine.KnightJumpOffsets | client/src/lib/chess/ChessEngine.ts:119-128 | The eight knight offsets are exactly the jumps of two squares one way and one the other. |
| ChessEngine.KingStepOffsets | client/src/lib/chess/ChessEngine.ts:170-179 | The eight king offsets are exactly the adjacent squares. |
| ChessEngine.FilterValid | client/src/lib/chess/ChessEngine.ts:53 | Keeps exactly the on-board targets. |
| ChessEngine.GetPossibleMoves | client/src/lib/chess/ChessEngine.ts:29-54 | A square is a target exactly when the rule for the piece's kind reaches it: pawn steps and captures, rook and bishop slides, either slide for a queen, knight jumps, and king steps. No target holds a piece of the mover's colour. |
| ChessEngine.AttackScanFinds | client/src/lib/chess/ChessEngine.ts:189-202 | The square scan finds an attacker exactly when one exists at or after the scan's start index. |
| ChessEngine.IsSquareUnderAttack | client/src/lib/chess/ChessEngine.ts:189-202 | A square is attacked exactly when some piece of the attacking colour on the board has it among its pseudo-legal targets. |
| ChessEngine.FindKing | client/src/lib/chess/ChessEngine.ts:204-214 | Returns nothing exactly when the colour has no king. Otherwise it returns that colour's king nearest the start of the row-major scan. |
| ChessEngine.FindKingIsFirst | client/src/lib/chess/ChessEngine.ts:204-214 | The scan returns the colour's first king in row-major order. |
| ChessEngine.IsInCheck | client/src/lib/chess/ChessEngine.ts:216-222 | Take the colour's first king in row-major order, which is the one the scan finds. The side is in check exactly when the opponent attacks that king's square. A side without a king is never in check. |
| ChessEngine.IsValidMove | client/src/lib/chess/ChessEngine.ts:224-230 | A move is valid exactly when its origin holds a piece and the destination is reached by that piece's per-kind rule. |
| ChessEngine.SetSquare | client/src/lib/chess/ChessEngine.ts:232-245 | Writes one square and leaves every other square unchanged. |
| ChessEngine.MakeMove | client/src/lib/chess/ChessEngine.ts:232-245 | The origin becomes empty. The destination holds the moved piece, marked as moved. No other square changes. |
| ChessEngine.LegalMovesFrom | client/src/lib/chess/ChessEngine.ts:257-271 | Keeps exactly the moves from the square whose resulting board leaves the mover out of check. |
| ChessEngine.MovesOnSquare | client/src/lib/chess/ChessEngine.ts:252-272 | Lists exactly the legal moves that start on the given square. |
| ChessEngine.GetAllValidMoves | client/src/lib/chess/ChessEngine.ts:247-277 | Lists exactly the legal moves of a colour. A legal move is one of its own pieces' pseudo-legal moves that does not leave its king in check. The moves are grouped by origin square in row-major order. |
| ChessEngine.NoLegalMoves | client/src/lib/chess/ChessEngine.ts:279-285 | The list of legal moves is empty exactly when no move is legal. |
| ChessEngine.IsCheckmate | client/src/lib/chess/ChessEngine.ts:279-281 | Checkmate holds exactly when the side is in check and no move is legal for it. |
| ChessEngine.IsStalemate | client/src/lib/chess/ChessEngine.ts:283-285 | Stalemate holds exactly when the side is not in check and no move is legal for it. |
| ChessEngine.ClassificationExclusive | client/src/lib/chess/ChessEngine.ts:279-285 | Checkmate and stalemate exclude each other. Checkmate implies check and stalemate excludes it. A side has no legal move exactly when it is mated or stalemated. |
| ChessEngine.MaterialMirror | client/src/lib/chess/ChessEngine.ts:287-310 | The material count is antisymmetric: flipping the board and swapping colours negates it. |
| ChessEngine.InitialMaterialBalanced | client/src/lib/chess/ChessEngine.ts:287-310 | The starting position has zero material balance under any table of piece values. |
| ChessEngine.InitialEvaluationIsZero | client/src/lib/chess/ChessEngine.ts:287-310 | The engine's evaluation of the starting position is 0. |
| AI.NewChessAI | client/src/lib/chess/AI.ts:7-18 | Search depth is 2 on easy, 3 on medium and 4 on hard. |
| AI.GetKingSafety | client/src/lib/chess/AI.ts:156-177 | The term is -20 for a king in the central 4x4 region, 0 elsewhere, plus 5 for each own pawn on the three squares in front of the king. So it lies between -20 and 15. It is at most -5 in the region and non-negative outside it. It reaches its maximum exactly when all three shield squares hold own pawns. |
| AI.KingSafetyMirror | client/src/lib/chess/AI.ts:156-177 | King safety is unchanged when the board is flipped and the colours swapped. |
| AI.CenterMirror | client/src/lib/chess/AI.ts:126-141 | The centre-control term is negated by flipping the board. |
| AI.EvaluationMirror | client/src/lib/chess/AI.ts:91-154 | With one king per side, flipping the board negates the AI's whole evaluation: material, centre control and both kings' safety. |
| AI.InitialEvaluationIsZero | client/src/lib/chess/AI.ts:91-154 | The AI scores the starting position 0. |
| AI.MinimaxTerminal | client/src/lib/chess/AI.ts:51-66 | Depth 0 returns the static evaluation. A side with no legal move scores a mate, its distance taken from the root, when in check, and 0 otherwise. |
| AI.MateScoreNearerIsStronger | client/src/lib/chess/AI.ts:58-62 | A mate found nearer the root scores further from zero than one found deeper. |
| AI.MinimaxWindow | client/src/lib/chess/AI.ts:44-89 | Inside any open window, clamped to that window, the pruned search equals the full minimax without pruning. |
| AI.MaxLoop | client/src/lib/chess/AI.ts:68-77 | The maximising loop never returns less than the running best and never +inf. With at least one child it returns a finite score. |
| AI.MinLoop | client/src/lib/chess/AI.ts:78-88 | The minimising loop never returns more than the running best and never -inf. With at least one child it returns a finite score. |
| AI.MaxLoopWindow | client/src/lib/chess/AI.ts:68-77 | The maximising loop with its beta cut-off agrees, inside the window, with the maximum over all children. |
| AI.MinLoopWindow | client/src/lib/chess/AI.ts:78-88 | The minimising loop with its alpha cut-off agrees, inside the window, with the minimum over all children. |
| AI.AlphaBetaMatchesMinimax | client/src/lib/chess/AI.ts:44-89 | Called with the full window, the alpha-beta search returns exactly the unpruned minimax value. |
| AI.RootScoresUnpruned | client/src/lib/chess/AI.ts:21-42 | Each root move's search score equals the unpruned minimax value of the position after that move. |
| AI.FirstBestUnique | client/src/lib/chess/AI.ts:28-39 | At most one index is the first optimum of a score list. |
| AI.FirstBestIndex | client/src/lib/chess/AI.ts:26-39 | Returns the first index holding the best score: the highest for White, the lowest for Black. |
| AI.GetBestMove | client/src/lib/chess/AI.ts:21-42 | Returns nothing exactly when the side has no legal move. Otherwise it returns a legal move: the first in generation order whose score is best, under the pruned search and under the unpruned minimax alike. |
| Strings.NatToStringRoundTrip | client/src/components/chess/Timer.tsx:7-11 | The decimal text of a number reads back as that number. |
| Strings.NatToStringInjective | client/src/components/chess/Timer.tsx:7-11 | Different numbers have different decimal texts. |
| Strings.PadStart | client/src/components/chess/Timer.tsx:10 | Left padding keeps the text as its suffix, fills only with the pad character, and reaches the requested length. |
| Strings.SplitJoin | server/gemini-ai.ts:78-91 | Splitting text joined with a separator that occurs in no part gives back the parts. |
| Squares.SquareNameRoundTrip | client/src/lib/services/geminiAI.ts:137-141 | Reading a square's algebraic name back gives the square. |
| Squares.SquareName | server/gemini-ai.ts:81-82 | A name is a file letter a-h then a rank digit 1-8. The letter's distance from 'a' is the column and the digit is 8 minus the row. |
| Squares.AlgebraicRoundTrip | client/src/lib/services/geminiAI.ts:137-141 | Every text of a file letter a-h followed by a rank digit 1-8 is the name of the square it is read as. |
| Squares.AlgebraicToPositionMapsFilesAndRanks | client/src/lib/services/geminiAI.ts:137-141 | Files a to h map to columns 0 to 7, and ranks 1 to 8 map to rows 7 to 0. |
| Squares.SquareNameInjective | client/src/components/chess/MoveHistory.tsx:9-10 | Different squares have different names. |
| MoveHistory.FormatMove | client/src/components/chess/MoveHistory.tsx:8-30 | A move-list entry is 2 to 4 characters long and ends with the destination square's name. |
| MoveHistory.FormatMoveMarksCaptures | client/src/components/chess/MoveHistory.tsx:20-26 | An entry contains 'x' exactly when the move captured. |
| MoveHistory.FormatMoveShapes | client/src/components/chess/MoveHistory.tsx:14-28 | A quiet pawn move shows only its target. A pawn capture shows the origin file, 'x', then the target. Any other piece shows its capital letter, then 'x' exactly for a capture, then the target. |
| MoveHistory.FormatMoveTarget | client/src/components/chess/MoveHistory.tsx:8-30 | The last two characters of an entry read back as the move's destination. |
| MoveHistory.FormatMoveNotInjective | client/src/components/chess/MoveHistory.tsx:8-30 | Two different moves can get the same entry, because the origin square is not shown. |
| MoveHistory.GroupMoves | client/src/components/chess/MoveHistory.tsx:32-43 | Row k, numbered k+1, holds move 2k and, when it exists, move 2k+1. There are half as many rows as moves, rounded up. |
| MoveHistory.GroupMovesRoundTrip | client/src/components/chess/MoveHistory.tsx:32-43 | Reading the rows in order gives back the move history. |
| GeminiClient.FindMove | client/src/lib/services/geminiAI.ts:110 | Finds the leftmost `[a-h][1-8]-[a-h][1-8]` match, and finds nothing exactly when the text has no match. |
| GeminiClient.ParseAlgebraicMove | client/src/lib/services/geminiAI.ts:103-135 | With no match, no move. With a match, a move exactly when the origin holds a piece of the requested colour. The move carries that piece and the destination's contents. |
| GeminiClient.ParseMoveText | client/src/lib/services/geminiAI.ts:103-135 | A reply holding `from-to` after text with no file letters parses to that move when the origin holds a piece of the requested colour. |
| GeminiClient.ParseRejects | client/src/lib/services/geminiAI.ts:120-131 | A match whose origin is empty or holds an opponent piece gives no move. |
| GeminiServer.SquareSymbol | server/gemini-ai.ts:57-61 | An empty square is '1', a white piece an upper-case letter, and a black piece a lower-case letter. |
| GeminiServer.PieceToSymbol | server/gemini-ai.ts:66-76 | Each kind has a lower-case letter, and that letter reads back as the same kind. |
| GeminiServer.SymbolRoundTrip | server/gemini-ai.ts:54-76 | A square's symbol determines the piece kind and colour on it. |
| GeminiServer.SquareSymbolInjective | server/gemini-ai.ts:54-76 | Squares with the same symbol hold the same kind and colour. |
| GeminiServer.BoardToFENLength | server/gemini-ai.ts:54-64 | The board string is always 71 characters: eight rows of eight, joined by '/'. |
| GeminiServer.BoardToFENRoundTrip | server/gemini-ai.ts:54-64 | Decoding the board string gives back every square's kind and colour. |
| GeminiServer.FormatMoveHistoryEmpty | server/gemini-ai.ts:78-91 | The history string is empty exactly when no move was played. |
| GeminiServer.FormatMoveHistoryRoundTrip | server/gemini-ai.ts:78-91 | Reading the history string back gives every move's origin and destination, in order. |
| GeminiServer.FormatMoveHistoryNumbering | server/gemini-ai.ts:78-91 | Split at spaces, the history of n > 0 moves has n + ceil(n/2) tokens. Move j is token j + j/2 + 1. Before each white move (even j) stands its number j/2 + 1 followed by a dot. |
| TimerView.SecondsText | client/src/components/chess/Timer.tsx:9-10 | The seconds field is two digits whose value is the seconds. |
| TimerView.FormatTime | client/src/components/chess/Timer.tsx:7-11 | The text is the minutes in decimal, ':', then two digits of seconds. |
| TimerView.FormatTimeRoundTrip | client/src/components/chess/Timer.tsx:7-11 | Reading the clock text back gives the number of seconds. |
| TimerView.InitialTimeText | client/src/components/chess/Timer.tsx:7-11 | The starting ten minutes show as "10:00". |
| TimerView.LowTimeShows | client/src/components/chess/Timer.tsx:30 | The low-time colour is on exactly when the clock shows "1:00" or starts with "0:", that is a minute or less. |
| TimerView.ActiveSides | client/src/components/chess/Timer.tsx:21-59 | At most one side is highlighted. No side is highlighted while the clock is paused. While it runs, the side to move is. |
| GameUI.GetGameStatus | client/src/components/chess/GameUI.tsx:40-56 | Checkmate takes precedence, naming the other colour as winner. Stalemate comes next, then check, then normal play. Each banner's message names the right side. |
| GameUI.StatusOfPosition | client/src/components/chess/GameUI.tsx:40-56 | With the engine's flags, the banner shows checkmate, stalemate, check or play exactly when the position is in that state. |
| ChessStore.InitializeGame | client/src/lib/stores/useChess.tsx:49-68 | A new game is consistent and its clock is in step with the side to move. The board is the starting board, the history is empty and White moves. The mode and difficulty are the chosen ones. Nothing is selected, and the check, checkmate, stalemate and draw flags are off. The clock starts at ten minutes each. An AI exists exactly in single-player mode, with the chosen difficulty's depth. |
| ChessStore.Safe | client/src/lib/stores/useChess.tsx:77-89 | Keeps exactly the targets after which the mover is not in check. |
| ChessStore.SafeTargetsAreLegalDestinations | client/src/lib/stores/useChess.tsx:77-89 | The highlighted targets of an own piece are exactly the destinations of the engine's legal moves from that square. |
| ChessStore.SelectSquare | client/src/lib/stores/useChess.tsx:70-142 | A click either leaves the board and player alone or plays exactly one move. A move extends the history, flips the player and clears the selection. Any selection afterwards is the clicked square, unless nothing changed. |
| ChessStore.SelectSquareCases | client/src/lib/stores/useChess.tsx:70-142 | From a consistent state, with nothing selected, clicking an own piece selects it with its safe targets and any other click changes nothing. Clicking the selected square deselects. Otherwise the click plays a move exactly when a legal move goes from the selected square to the clicked one. If no such move exists, an own piece is selected instead and any other square clears the selection. |
| ChessStore.SelectSquarePreservesConsistency | client/src/lib/stores/useChess.tsx:70-142 | A click keeps several facts true together: the board is the replay of the history and the player follows its parity. A selection is an own piece, and the highlighted squares are its legal targets. |
| ChessStore.SelectSquarePlaysLegalMoves | client/src/lib/stores/useChess.tsx:70-142 | A click adds no move, or adds one move that is legal for the side to move. |
| ChessStore.MakeMove | client/src/lib/stores/useChess.tsx:144-179 | A move from a square without an own piece changes nothing. Otherwise the move is appended and played, and the player flips. The selection clears, the flags describe the new position, and the clock follows the new player. Nothing else changes. |
| ChessStore.MakeMovePreservesConsistency | client/src/lib/stores/useChess.tsx:144-179 | Making a move keeps the store consistent, and keeps the clock in step. |
| ChessStore.ReplayFromMatches | client/src/lib/stores/useChess.tsx:213-220 | The undo loop's board and player equal the history's replay and the colour given by the history's parity. |
| ChessStore.UndoneHistory | client/src/lib/stores/useChess.tsx:201-208 | Undo drops two moves in single-player mode when at least two were played, otherwise one. It keeps a prefix. |
| ChessStore.UndoMove | client/src/lib/stores/useChess.tsx:197-232 | Undo with no history changes nothing. Otherwise it shortens the history and rebuilds the board and player by replay. It clears the selection and recomputes the flags. The clock, mode, difficulty, AI and draw flag stay as they were. |
| ChessStore.UndoMovePreservesConsistency | client/src/lib/stores/useChess.tsx:197-232 | Undo keeps the store consistent. |
| ChessStore.UndoDesyncsClock | client/src/lib/stores/useChess.tsx:222-231 | In two-player mode, after e2-e4 and an undo, White is to move but the clock runs for Black. |
| ChessStore.UndoMoveSynced | client/src/lib/stores/useChess.tsx:175-178 | With no history the corrected undo changes nothing. Otherwise it equals the source's undo except that the clock's turn is set to the side to move; both times and the running flag are kept. |
| ChessStore.UndoMoveSyncedPreservesInvariants | client/src/lib/stores/useChess.tsx:197-232 | The corrected undo keeps the store consistent and the clock in step. |
| ChessStore.Tick | client/src/lib/stores/useChess.tsx:276-291 | A paused clock does not change. A running clock takes one second from the side on turn, never going below 0, and stops exactly when that side reaches 0. |
| ChessStore.TicksWhite | client/src/lib/stores/useChess.tsx:276-291 | n seconds on White's clock leave max(0, w - n) for White and Black's time untouched. The clock still runs exactly when w > n. |
| ChessStore.TicksBlack | client/src/lib/stores/useChess.tsx:276-291 | n seconds on Black's clock leave max(0, b - n) for Black and White's time untouched. The clock still runs exactly when b > n. |
| ChessStore.Ticks | client/src/lib/stores/useChess.tsx:276-291 | Over any number of seconds the side on turn is unchanged, and a paused clock does not change at all. A clock that starts at zero or more stays between zero and its start. |
| ChessStore.TickState | client/src/lib/stores/useChess.tsx:280-286 | A tick changes only the clock. |
| ChessStore.StartTimer | client/src/lib/stores/useChess.tsx:246-250 | Starting sets the clock running and changes nothing else. |
| ChessStore.PauseTimer | client/src/lib/stores/useChess.tsx:252-256 | Pausing stops the clock and changes nothing else. |
| ChessStore.ResetTimer | client/src/lib/stores/useChess.tsx:258-260 | The clock returns to ten minutes each, paused, White's turn. Nothing else changes. |
| ChessStore.ResetGame | client/src/lib/stores/useChess.tsx:192-195 | A reset gives a consistent, clock-synced new game in the same mode and difficulty: initial board, white to move, empty history, no selection, all four flags false, a fresh clock, and an AI of the difficulty's depth exactly in single-player mode. |
| ChessStore.SetGameMode | client/src/lib/stores/useChess.tsx:234-237 | Switching mode starts a new consistent, clock-synced game in that mode with the same difficulty: initial board, empty history, no selection, flags false, a fresh clock, and an AI exactly in single-player mode. |
| ChessStore.SetAIDifficulty | client/src/lib/stores/useChess.tsx:239-244 | Sets the difficulty and a new AI of matching depth. Every other field is unchanged, so a consistent, clock-synced state stays so. |

## Left out

- Network, LLM and server code (the HTTP routes, the Gemini client calls, the fallback to the local AI, and the reply text extraction) is left out. It is I/O, and the model covers only the pure helpers on either side of it.
- Rendering is left out: the board, pieces, hint arrow, app shell, and the CSS classes of the timer and banner. These are presentation only. The timer's highlight and low-time rules are modelled (`TimerView.IsActive`, `TimerView.IsLowTime`).
- The `setTimeout` that makes the AI reply 500 ms after a player move is left out. It is an asynchronous trigger. `AI.GetBestMove` and `ChessStore.MakeMove` model what it runs.
- The one-second `setInterval` that drives the clock is left out. `ChessStore.Tick` models one firing of it and `ChessStore.Ticks` models several. The pause at zero is folded into the tick.
- Piece `id` strings and the move fields for en passant, castling, promotion and notation are not modelled. The core never sets or reads them.
- ChessEngine.MakeMove: the source copies the board's rows but not the piece objects, so setting `hasMoved` also changes the piece held in the move record and in older boards. The model sets the flag on a fresh copy only.
- Squares.SquareName: requires an on-board square; the core never names any other.
- Squares.AlgebraicToPosition: requires a digit in the second character, where `parseInt` would give NaN. Its only callers pass text matched by `[a-h][1-8]`.
- TimerView.FormatTime: takes a natural number, because the clock is floored at 0 and never negative.
- AI.GetBestMove: modelled as written, including the colour convention. The search maps a maximising ply to Black's moves. The root passes `color === 'black'` as the maximising flag, so the first ply below the root generates moves for the side that has just moved, not for its opponent. The model keeps this and proves nothing about playing strength.
- ChessStore.InitializeGame: does not claim the flags equal the engine's classification of the starting position, which would need a proof over every opening move. The store sets them to false and the model keeps that.
- ChessStore.SelectSquareCases: stated for consistent states. Every store action keeps the state consistent.
- ChessStore.Ticks: the bounds are stated for clocks that start at zero or more. The store never holds a negative time.
- GeminiServer.FormatMoveHistoryNumbering: stated for a non-empty history. `FormatMoveHistoryEmpty` covers the empty one.
- ChessStore.UndoMove: requires the history's moves to be on the board. Every store action keeps that true.

## Findings

| source | as written | input that shows it | evidently intended | confidence | as-written member | corrected member |
|---|---|---|---|---|---|---|
| client/src/lib/stores/useChess.tsx:222-231 | `undoMove` rebuilds the board and `currentPlayer` but does not update `timer.currentTurn`, which `makeMove` keeps equal to the side to move (lines 175-178). | Two-player mode: play e2-e4, then undo. White is to move but the running clock ticks Black's time. | Undo also sets the clock's turn to the side to move. | not executed | ChessStore.UndoMove, ChessStore.UndoDesyncsClock | ChessStore.UndoMoveSynced, ChessStore.UndoMoveSyncedPreservesInvariants |
