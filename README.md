# Chess move engine — a verified Dafny model

This project models the move engine of a browser chess game: the `Board`
class of `src/components/chess/board.js`, the bounded cursor `Square` of
`src/components/chess/square.js` and its sibling from/to cursor `Move` of
`src/components/chess/move.js`.

The board is 64 squares, indexed `8 * col + line`. Each square holds either
nothing or a piece record `{player, name, moveCount, legalMoves}`. Beside
the squares, the board keeps a stack of the moves made. `y` is the column
(file) and `x` the line (rank). `UP` adds one to the line, and White starts
on lines 0 and 1.

The engine can:

- set up the start position;
- make and cancel a move in place;
- test a side for check by walking a cursor outward from its king;
- fill in the `legalMoves` map of every piece of one side. It walks a cursor
  from each piece and keeps only the destinations where making the move
  leaves the mover out of check.

The model has eight modules, one per file:

| file | module | contents |
|---|---|---|
| `square.dfy` | `Squares` | coordinates, packing and unpacking of indices, and the class `Square` (the cursor, as in the source, with mutable `y`/`x` and a fixed origin) |
| `move.dfy` | `Moves` | the class `Move`, two distinct `Square` objects of which only `to` is ever stepped |
| `pieces.dfy` | `Pieces` | sides, piece names, move-type tags, piece records, history records, and the step-vector constants |
| `positions.dfy` | `Positions` | the board's pure queries on a position, and the pure meaning of its mutations: a move, its cancellation, clearing the cached moves, and the start position |
| `check.dfy` | `Check` | check as a pure specification (`Checked`), with a declarative characterisation (`CheckedIff`) and its independence from the cached moves |
| `generation.dfy` | `Generation` | legal-move generation as a pure specification. Each kind of piece gets the candidate sequence it proposes, in the engine's order. `Filter` keeps the candidates that pass the check test. `Rule` states the movement rules independently, and `LegalMovesIff` connects the two |
| `board.dfy` | `Boards` | the class `Board`, with fields `squares` and `moves` and the engine's operations as methods, each proved against the specifications above |
| `scenarios.dfy` | `Scenarios` | two positions worked out on the specifications: the start position, where White has exactly twenty legal moves, and the fool's mate, each of whose four moves move generation records as legal, and after which White is in check and has none |

Each loop of the engine is a loop here: the set-up loops, the scan for a
piece, the reset of the cached moves, the loop over all squares, every
`forEach` over step vectors, and every `while` walk of a cursor along a ray.

A few loop bodies are methods of their own, so that each proof stays small:

- `RecordIfSafe` is the "test check, then record" step.
- `RecordLeapSquare`, `AdvanceOnce` and `RecordRaySquare` are one step of the cursor.
- `AttackerOn` is the nested tests on the first occupied square of a ray.

In `calculateAllMoves` the ray walk leaves its inner `while` with `break`.
Here `RayMoves` returns from the walk instead, since one call of it is one ray.

During the move generation, the board differs from the position it started
from only in the cached `legalMoves`. The speculative moves are always
cancelled, and each one is evaluated on and compared against that starting
position. `SameExceptLegalMoves` and the lemmas that ignore the cached maps
(`CheckedIgnoresLegalMoves`, `SafeIgnoresLegalMoves`) justify this.

## Model

| member | source | states |
|---|---|---|
| Squares.IndexBounds | src/components/chess/square.js:13-16 | an on-board coordinate packs into [0, 63], and integer division and remainder by 8 give the coordinate back |
| Squares.IndexInjective | src/components/chess/square.js:13-16 | two on-board coordinates pack to the same index exactly when they are equal |
| Squares.DecodeIndex | src/components/chess/board.js:169 | decoding an index as `(trunc(i / 8), i % 8)` gives an on-board coordinate that packs back to `i` |
| Squares.Square.constructor | src/components/chess/square.js:6-12 | origin and current square are both the given coordinate |
| Squares.Square.GetIndex | src/components/chess/square.js:13-16 | the index of the cursor is `Index(y, x)` of its current square, and lies in [0, 63] when the cursor is on the board |
| Squares.Square.MoveOneSpace | src/components/chess/square.js:19-31 | moves exactly when the target is on the board, in that case by the offset; otherwise the cursor is unchanged; a cursor on the board stays on it |
| Squares.Square.GoBackOrigin | src/components/chess/square.js:32-36 | the cursor is back on its fixed origin (so a second call changes nothing) |
| Moves.Move.constructor | src/components/chess/move.js:15-19 | two fresh, distinct cursors, both at `(y, x)` |
| Moves.Move.SetTo | src/components/chess/move.js:20-24 | `to` is exactly `(y, x)`; `from` is untouched |
| Moves.Move.MoveOneSpace | src/components/chess/move.js:27-39 | `to` steps exactly when the result stays on the board, otherwise it is unchanged; `from` never changes |
| Moves.Move.GoToOrigin | src/components/chess/move.js:40-44 | `to` takes `from`'s coordinates, `from` unchanged |
| Pieces.Opponent | src/components/chess/board.js:298 | `1 - player` is the other side |
| Pieces.PawnAdvance | src/components/chess/board.js:175 | White pawns advance up a line, Black pawns down |
| Pieces.PawnDiagonals | src/components/chess/board.js:198 | a pawn's diagonals are the neighbouring files one line ahead |
| Pieces.SpacesShape | src/components/chess/board.js:18-32 | bishop vectors are the four diagonals, rook vectors the four orthogonals, the royal vectors all eight and distinct; the knight's eight leaps are distinct and non-null |
| Positions.IsEmpty | src/components/chess/board.js:70-73 | a square is empty exactly when it holds no piece |
| Positions.IsCapturable | src/components/chess/board.js:74-77 | a square is capturable by a side exactly when it holds a piece of the other side that is not a king |
| Positions.IsMovable | src/components/chess/board.js:78-81 | a square is movable exactly when it holds a piece whose cached map of legal moves has at least one entry |
| Positions.IsLegalMove | src/components/chess/board.js:82-85 | `from -> to` is legal exactly when `to` is a key of the cached map of the piece on `from` |
| Positions.IsOccupiedBy | src/components/chess/board.js:87-90 | a square is occupied by `(player, name)` exactly when it holds a piece of that side and that name |
| Positions.GetMoveType | src/components/chess/board.js:104-107 | the cached move type of `from -> to`, and nothing where the source yields `undefined` (no entry for `to`) |
| Positions.CapturableMeansEnemyNonKing | src/components/chess/board.js:74-90 | a capturable square holds an enemy piece that is not a king, so it is neither empty, an enemy king, nor an own piece, and conversely |
| Positions.MovableIffSomeLegalMove | src/components/chess/board.js:78-107 | a piece is movable exactly when some destination is a legal move of it; the move type is defined exactly on the legal destinations |
| Positions.FirstIndexFrom | src/components/chess/board.js:92-103 | the scan from `start` returns an occupied square of `(player, name)` with none before it, and returns nothing exactly when there is none |
| Positions.FirstIndexOf | src/components/chess/board.js:92-103 | the first index holding `(player, name)`: found squares hold it and no earlier square does; nothing is found exactly when no square holds it |
| Positions.FirstIndexIgnoresLegalMoves | src/components/chess/board.js:92-103 | the scan does not depend on the cached legal moves |
| Positions.Cleared | src/components/chess/board.js:140-149 | every piece keeps everything but gets an empty `legalMoves`; empty squares stay empty |
| Positions.ClearedIsSame | src/components/chess/board.js:140-149 | clearing changes nothing but the cached moves |
| Positions.WithLegalMoves | src/components/chess/board.js:109-112 | the chosen piece's cached map becomes the given map while its side, name and move count stay the same; every other square is unchanged |
| Positions.WithLegalMove | src/components/chess/board.js:109-112 | the position in which the piece on `from` has `to` recorded with `moveType` in its cached map, everything else as before; `Boards.Board.RecordLegalMove` is stated through it and `Positions.RecordedMoveIsLegal` proves what it means |
| Positions.RecordedMoveIsLegal | src/components/chess/board.js:109-112 | after recording, `to` is a legal move with the recorded type, the piece is movable, other recorded moves keep their types, and the placement is unchanged |
| Positions.AfterMove | src/components/chess/board.js:113-128 | `from` becomes empty, `to` holds the moved piece with one more move, every other square is unchanged |
| Positions.CapturedBy | src/components/chess/board.js:116-121 | the captured piece of the record is the former occupant of `to`, or, for `from == to`, the moving piece itself with one move more |
| Positions.RecordOf | src/components/chess/board.js:116-121 | the history record of a move holds its `from`, `to`, move type and captured piece, and lies on the board |
| Positions.AfterCancel | src/components/chess/board.js:129-139 | `to` gets the captured piece back, `from` gets the occupant of `to` with one move fewer, nothing else changes |
| Positions.CancelUndoesMove | src/components/chess/board.js:113-139 | for `from != to`, cancelling the record a move pushed gives back exactly the position before the move |
| Positions.SelfMoveEmptiesSquare | src/components/chess/board.js:124-126 | a move with `from == to` leaves that square empty, so it cannot be cancelled |
| Positions.MoveKeepsSameExceptLegalMoves | src/components/chess/board.js:113-128 | positions that differ only in cached moves still do after the same move |
| Positions.KingSurvivesMove | src/components/chess/board.js:113-128 | moving one's own piece to an empty or capturable square leaves one's king on the board |
| Positions.StartOccupant | src/components/chess/board.js:56-65 | the set-up entry of `(col, line)`: a White piece on lines 0-1, a Black piece on lines 6-7, the back-line name `NAMES[col]` on lines 0 and 7 and a pawn otherwise, unmoved with no cached moves; empty on lines 2-5 |
| Positions.StartPosition | src/components/chess/board.js:50-68 | the 64 set-up entries in the order the nested loop pushes them, column by column, line by line |
| Positions.StartPositionLayout | src/components/chess/board.js:50-68 | lines 0-1 White, 6-7 Black, back lines follow `NAMES`, lines 1 and 6 pawns, lines 2-5 empty; every piece unmoved with no cached moves |
| Positions.StartKings | src/components/chess/board.js:50-68 | the scan finds White's king on column 4 of line 0 and Black's on column 4 of line 7 |
| Check.RayStep | src/components/chess/board.js:321-360 | one step of the ray walk: an occupied next square decides check, an empty one passes the walk on one square further |
| Check.PawnCheck | src/components/chess/board.js:294-304 | an enemy pawn stands on one of the two squares the side's forward-diagonal table points to from `(y, x)` |
| Check.KnightCheck | src/components/chess/board.js:306-315 | an enemy knight stands on one of the squares the knight table points to from `(y, x)` |
| Check.PawnCheckIff | src/components/chess/board.js:294-304 | the pawn loop finds an enemy pawn exactly when one stands one file sideways and one line towards the enemy from `(y, x)` |
| Check.KnightCheckIff | src/components/chess/board.js:306-315 | the knight loop finds an enemy knight exactly when one stands two squares along one axis and one along the other from `(y, x)`: the table holds every such leap |
| Check.Delivers | src/components/chess/board.js:327-355 | an enemy met first along a ray gives check when it is a queen, a king at distance 1, a rook on an orthogonal ray or a bishop on a diagonal one |
| Check.Attacker | src/components/chess/board.js:323-357 | the square holds a piece of the other side that gives check along the ray from that distance (`Delivers`) |
| Check.RayAttack | src/components/chess/board.js:318-362 | walking outward along a ray, the first occupied square decides (check when it holds an `Attacker`), and reaching the board's edge means no check |
| Check.RayAttackIff | src/components/chess/board.js:318-362 | the ray walk finds check exactly when the first occupied square of the ray holds an enemy that attacks along it from that distance |
| Check.Checked | src/components/chess/board.js:287-365 | a side with a king is in check exactly when, from its first king, an enemy pawn sits on one of its forward diagonals, an enemy knight a leap away, or the first occupied square of one of the eight rays holds an enemy that attacks along it; a side without a king is reported as not in check |
| Check.CheckedIff | src/components/chess/board.js:287-365 | a side is in check exactly when it has a king and, from the king: an enemy pawn stands one file sideways and one line ahead, or an enemy knight two squares along one axis and one along the other, or the first occupied square of a ray is an enemy queen, an adjacent enemy king, an enemy rook on an orthogonal ray or an enemy bishop on a diagonal one; all three parts are stated without the engine's tables or the recursive walk |
| Check.RayAttackIgnoresLegalMoves | src/components/chess/board.js:318-362 | the ray walk does not depend on the cached moves |
| Check.CheckedIgnoresLegalMoves | src/components/chess/board.js:287-365 | check does not depend on the cached moves |
| Generation.LeapCandidates | src/components/chess/board.js:210-241 | every leap proposal is an on-board open square other than the origin, with the default move type |
| Generation.LeapMembership | src/components/chess/board.js:210-241 | a square is a leap proposal exactly when one of the step vectors lands on it and it is empty (where quiet moves are allowed) or capturable |
| Generation.RayCandidates | src/components/chess/board.js:257-279 | the k-th proposal of a ray is the square k + 1 steps along it; all are open; all but the last are empty |
| Generation.RayMembership | src/components/chess/board.js:257-279 | a square is proposed along a ray exactly when it is open and every square before it is empty |
| Generation.NothingBeyondFirstOccupied | src/components/chess/board.js:268-278 | no square beyond the first occupied square of a ray is proposed |
| Generation.RaysAvoidOrigin | src/components/chess/board.js:257-279 | ray proposals never land on the piece's own square |
| Generation.SlideCandidates | src/components/chess/board.js:242-281 | slide proposals are open on-board squares other than the origin, with the default move type |
| Generation.SlideMembership | src/components/chess/board.js:242-281 | a square is a slide proposal exactly when some ray of the piece reaches it |
| Generation.PawnAdvances | src/components/chess/board.js:174-196 | a pawn's advances: one square ahead if it is on the board and empty, and then, only on the pawn's first move, the next square ahead if it is empty too, as MoveTwoSpaces |
| Generation.PawnCandidates | src/components/chess/board.js:172-209 | a pawn's proposals in the engine's order: its advances, then the two forward diagonals onto capturable pieces only |
| Generation.PawnMembership | src/components/chess/board.js:172-209 | a pawn proposes exactly: one square ahead onto an empty square; two ahead, as MoveTwoSpaces, when unmoved with both squares empty; one diagonally ahead onto a capturable piece |
| Generation.PawnRuleFunctional | src/components/chess/board.js:172-209 | the pawn rules give one destination at most one move type |
| Generation.Candidates | src/components/chess/board.js:163-281 | the proposals of the piece on a square, chosen by its name: the pawn block, the knight and king leaps (quiet moves allowed) over their tables, and slides along the bishop, rook or queen directions |
| Generation.CandidatesIff | src/components/chess/board.js:172-281 | the proposals of any piece are exactly the destinations its movement rule allows |
| Generation.RuleFunctional | src/components/chess/board.js:172-281 | the movement rules give one destination at most one move type |
| Generation.CandidatesWellFormed | src/components/chess/board.js:172-281 | every proposal is an on-board open square other than the piece's own |
| Generation.SafeIgnoresLegalMoves | src/components/chess/board.js:150-157 | the check test after a move does not depend on the cached moves |
| Generation.Filter | src/components/chess/board.js:179-182 | the proposals are taken in order and each is written into the map, overwriting, exactly when the move is safe; this is the guarded `recordLegalMove` of every site (lines 179-181, 190-192, 203-205, 218-220, 234-236, 263-265 and 272-274) |
| Generation.RayFilter | src/components/chess/board.js:257-279 | the same guarded recording, applied to the squares one ray proposes |
| Generation.FilterSpec | src/components/chess/board.js:179-182 | a destination ends up recorded exactly when it was already there or is a candidate whose move is safe, and it keeps either its old type or the safe candidate's |
| Generation.FilterConcat | src/components/chess/board.js:163-284 | filtering one sequence after another is filtering their concatenation |
| Generation.Safe | src/components/chess/board.js:150-157 | a move is safe for a side exactly when the position after it does not leave that side in check |
| Generation.LegalMoves | src/components/chess/board.js:159-285 | the cached map of the piece on a square: its proposals, in the engine's order, kept when safe, each with its move type |
| Generation.LegalMovesIff | src/components/chess/board.js:159-285 | a destination is recorded exactly when the movement rules allow it and the move does not leave the mover in check, and it is recorded with the rules' move type |
| Generation.LegalMovesOpen | src/components/chess/board.js:159-285 | every recorded destination is on the board, not the piece's own square, empty or capturable (never a king, never an own piece), and the move leaves the mover out of check |
| Generation.PawnLegalMoves | src/components/chess/board.js:172-209 | a pawn's recorded moves in index terms: `i + a` onto empty; `i + 2a` as MoveTwoSpaces when unmoved and both empty; `i ± 8 + a` onto a capturable piece (`a` = +1 for White, -1 for Black) |
| Boards.Board.constructor | src/components/chess/board.js:44-49 | a new board holds the start position and an empty history |
| Boards.Board.Setup | src/components/chess/board.js:50-68 | appends the 64 start-position entries, column by column and line by line |
| Boards.Board.FindPieceIndex | src/components/chess/board.js:92-103 | the scan's result is the first index holding `(player, name)`, or nothing |
| Boards.Board.RecordLegalMove | src/components/chess/board.js:109-112 | sets `legalMoves[to] := moveType` of the piece on `from`, nothing else |
| Boards.Board.Move | src/components/chess/board.js:113-128 | the squares become the position after the move, and the history grows by exactly its record (the former occupant of `to` as captured piece) |
| Boards.Board.CancelLastMove | src/components/chess/board.js:129-139 | on an empty history nothing changes; otherwise the last record is popped and undone |
| Boards.Board.ResetMovesIndexes | src/components/chess/board.js:140-149 | every piece's cached moves become empty |
| Boards.Board.IsCheckedIfMoving | src/components/chess/board.js:150-157 | returns whether the side is in check after the move; squares and history end exactly as before |
| Boards.Board.IsChecked | src/components/chess/board.js:287-365 | returns exactly `Checked` of the current squares |
| Boards.Board.LeapIsAttacked | src/components/chess/board.js:294-315 | reports whether one of the step vectors from the king lands on an enemy piece of the given name, and leaves the cursor on its origin |
| Boards.Board.RayIsAttacked | src/components/chess/board.js:318-362 | the walk along one ray returns exactly `RayAttack` from the king |
| Boards.Board.AttackerOn | src/components/chess/board.js:323-357 | the nested tests on the first occupied square say exactly whether it attacks along the ray from that distance |
| Boards.Board.RecordIfSafe | src/components/chess/board.js:179-182 | records the move exactly when making it leaves the mover out of check |
| Boards.Board.RecordLeapSquare | src/components/chess/board.js:213-223 | one leap is recorded exactly when it lands on the board, on an empty (if allowed) or capturable square, and is safe |
| Boards.Board.LeapMoves | src/components/chess/board.js:210-241 | the cached map becomes the filter of the leap proposals |
| Boards.Board.AdvanceOnce | src/components/chess/board.js:177-195 | one pawn step: advances exactly when the square ahead is on the board and empty, recording it when safe |
| Boards.Board.PawnAdvanceMoves | src/components/chess/board.js:174-196 | the cached map becomes the filter of the pawn's advances |
| Boards.Board.PawnMoves | src/components/chess/board.js:172-209 | the cached map becomes the filter of all pawn proposals, advances then diagonals |
| Boards.Board.RecordRaySquare | src/components/chess/board.js:259-278 | one square of a ray walk is recorded when open and safe; the walk goes on exactly when it is empty |
| Boards.Board.RayMoves | src/components/chess/board.js:257-279 | the cached map becomes the filter of the ray's proposals |
| Boards.Board.SlideMoves | src/components/chess/board.js:242-281 | the cached map becomes the filter of all rays in order |
| Boards.Board.PieceMoves | src/components/chess/board.js:163-283 | the piece's cached map becomes `LegalMoves` of the starting position |
| Boards.Board.CalculateAllMoves | src/components/chess/board.js:159-285 | every piece of the side caches exactly its `LegalMoves` of the starting position, every other piece caches nothing, the placement and history are unchanged |
| Scenarios.StartPawnMoves | src/components/chess/board.js:172-209 | from the start position each pawn has exactly two legal moves: one square ahead (Default) and two squares ahead (MoveTwoSpaces) |
| Scenarios.StartKnightMoves | src/components/chess/board.js:210-241 | from the start position each knight has exactly two legal moves, to the two empty squares two lines ahead of it |
| Scenarios.StartBackLineMoves | src/components/chess/board.js:242-281 | from the start position the rooks, bishops, queen and king have no legal move |
| Scenarios.StartMoves | src/components/chess/board.js:159-285 | from the start position every White piece's legal moves are exactly those of the reference map `OpeningMoves` |
| Scenarios.OpeningIsSafe | src/components/chess/board.js:287-365 | none of White's twenty opening moves leaves White in check |
| Scenarios.StartMoveTotal | src/components/chess/board.js:159-285 | White's legal moves from the start position number exactly twenty |
| Scenarios.FoolsAt | src/components/chess/board.js:113-128 | the four moves f3, e5, g4, Qh4 give the reference layout: the two White pawns and the Black pawn and queen on their new squares, moved once, their old squares empty, the rest as at the start |
| Scenarios.FoolsChecked | src/components/chess/board.js:287-365 | after the fool's mate White is in check, from the queen on h4 along the diagonal to e1 |
| Scenarios.FoolsNoMoves | src/components/chess/board.js:159-285 | in the fool's-mate layout no White piece has a legal move |
| Scenarios.FoolsMateIsMate | src/components/chess/board.js:159-365 | after the fool's mate White is in check and every White piece's legal moves are empty |
| Scenarios.FoolsMovesLegal | src/components/chess/board.js:159-285 | each move of the fool's mate is recorded by move generation in the position it is played from: f2-f3 (Default), e7-e5 (MoveTwoSpaces), g2-g4 (MoveTwoSpaces), Qd8-h4 (Default) |
| Scenarios.FoolsF3Legal | src/components/chess/board.js:172-209 | from the start position the f-pawn's move to f3 is recorded with the Default type |
| Scenarios.FoolsE5Legal | src/components/chess/board.js:172-209 | after 1. f3 the e-pawn's move to e5 is recorded with the MoveTwoSpaces type |
| Scenarios.FoolsG4Legal | src/components/chess/board.js:172-209 | after 1. f3 e5 the g-pawn's move to g4 is recorded with the MoveTwoSpaces type |
| Scenarios.Qh4Rule | src/components/chess/board.js:242-281 | after 1. f3 e5 2. g4 the queen on d8 may slide to h4 by the movement rules |
| Scenarios.FoolsQh4Legal | src/components/chess/board.js:242-281 | after 1. f3 e5 2. g4 the queen's move to h4 is recorded with the Default type |
| Scenarios.E5LeavesBlackSafe | src/components/chess/board.js:287-365 | after 1. f3 e5 Black is not in check |
| Scenarios.G4LeavesWhiteSafe | src/components/chess/board.js:287-365 | after 1. f3 e5 2. g4 White is not in check, although the diagonal e1-h4 is open |
| Scenarios.FoolsLeavesBlackSafe | src/components/chess/board.js:287-365 | after the fool's mate Black is not in check |

## Left out

- En passant, promotion and castling: the source declares their move-type tags and nothing else; the model keeps the tags (`MoveType`) and, like the source, never produces or applies them.
- The router (`src/router/index.js`) and every user-interface concern: they hold no engine logic.
- Checkmate, stalemate and turn order: these files do not implement them. The fool's mate in `Scenarios` is stated as check plus no legal move, in terms of the model's own specifications, and `MoveTotal` is a count defined only for stating the twenty opening moves; neither is an operation of the engine.
- The `moveType` and `capturedPiece` fields of `Move` in move.js: they are declared but never assigned, and `Move` is not used by the board.
- Object identity of piece records: pieces are values. The one place where sharing shows is `move(from, from)`: the history record holds the moving piece itself, already counted one move more. `CapturedBy` models this explicitly.
- Boards.Board.squares: the source's array grows by `push` during set-up and is updated cell by cell; here it is a `seq` field that each method reassigns, so the model does not show in-place array writes.
- Boards.Board.FindPieceIndex: the source's `for..in` yields the index as a string key, which `isChecked` only divides; the model returns an integer.
- Boards.Board.IsChecked: requires the side to have a king; without one the source fails with a type error while walking from an undefined index, which the model does not reproduce.
- Boards.Board.CalculateAllMoves: requires the side to have a king, so the model excludes kingless positions outright. The source fails only once it tests a candidate move with `isChecked`; a kingless side none of whose pieces has a candidate move completes normally there, and the model does not cover that case.
- Boards.Board.IsCheckedIfMoving: requires `from != to`, an occupied `from`, and a king of the side in the position after the move; without that king the source's `isChecked` fails with a type error; with `from == to` the source's cancellation dereferences an emptied square (`SelfMoveEmptiesSquare` shows the square is empty), and move generation never proposes the origin (`CandidatesWellFormed`).
- Boards.Board.Move, Boards.Board.RecordLegalMove: require an occupied `from`; the source dereferences the empty square and fails.
- Boards.Board.Move: also requires `0 <= to < 64`. The source's `move` with an off-board `to` does not fail: for `to >= 64` it writes past the end and grows the array, and for `to < 0` it adds a property that is not an array index, leaving the length at 64. The model keeps the board at 64 squares and excludes that case; `IsCheckedIfMoving` requires the same of its `to`, and move generation only proposes on-board squares (`CandidatesWellFormed`).
- Boards.Board.CancelLastMove: requires the last record's `to` square to be occupied, since the source dereferences it and fails otherwise. The requirement that the record's squares lie on the board excludes nothing: `Move` requires `0 <= from, to < 64`, and `Valid()` keeps every record on the board. (With an off-board `to` the source would not fail: for `to >= 64` it would grow the array, and for `to < 0` it would add a property that is not an array index.)
- Positions.IsLegalMove, Positions.GetMoveType: require an occupied `from`, as the source dereferences it unguarded; `GetMoveType` returns `None` where the source returns `undefined`.
- Integer width: coordinates, indices and move counts are unbounded integers; in the source they are JavaScript numbers that stay small, so no wrap-around arises.
- Console output: the commented-out logging in `isChecked` is not modelled.
