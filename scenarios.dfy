/**
 * Two positions whose answers are known from chess itself, worked out in
 * the model: from the start position White has exactly twenty legal moves
 * (each pawn one or two squares ahead, each knight to the two squares in
 * front of it); each move of the fool's mate (1. f3 e5 2. g4 Qh4) is one
 * that move generation records as legal, and after it White is in check and
 * has no legal move at all.
 *
 * Files are columns 0-7 (a-h) and ranks are lines 0-7 (1-8), so White's
 * king starts on `Index(4, 0)` (e1).
 */
module Scenarios {
  import opened Squares
  import opened Pieces
  import opened Positions
  import opened Check
  import opened Generation

  // ---------------------------------------------------------------------
  // Shared reasoning

  /** The start position, square by square. */
  lemma StartAt(col: int, line: int)
    requires InRange(col, line)
    ensures StartPosition()[Index(col, line)] == StartOccupant(col, line)
  {
    IndexBounds(col, line);
  }

  /** The first square along `d` from `(y, x)` is off the board or holds
      one of `p`'s own pieces. */
  predicate Blocked(s: Position, p: Player, y: int, x: int, d: Offset)
    requires |s| == 64
  {
    !OnRay(y, x, d, 1) || (s[RaySquare(y, x, d, 1)].Some? && s[RaySquare(y, x, d, 1)].value.player == p)
  }

  /** A blocked ray reaches no square at all. */
  lemma BlockedReachesNothing(s: Position, p: Player, y: int, x: int, d: Offset, m: int)
    requires |s| == 64 && Blocked(s, p, y, x, d)
    ensures !RayReach(s, p, y, x, d, m)
  {
  }

  /** A piece all of whose rays are blocked has no sliding move. */
  lemma BoxedIn(s: Position, p: Player, y: int, x: int, spaces: seq<Offset>, t: int)
    requires |s| == 64
    requires forall k :: 0 <= k < |spaces| ==> Blocked(s, p, y, x, spaces[k])
    ensures !SlideRule(s, p, y, x, spaces, t)
  {
    forall d, m | d in spaces
      ensures !RayReach(s, p, y, x, d, m)
    {
      var k :| 0 <= k < |spaces| && spaces[k] == d;
      BlockedReachesNothing(s, p, y, x, d, m);
    }
  }

  /** A king (or any leaper with unit steps) all of whose first squares are
      blocked has no move. */
  lemma LeapsBoxedIn(s: Position, p: Player, y: int, x: int, spaces: seq<Offset>, quiet: bool, t: int)
    requires |s| == 64 && Directions(spaces)
    requires forall k :: 0 <= k < |spaces| ==> Blocked(s, p, y, x, spaces[k])
    ensures !exists d :: d in spaces && LeapTo(s, p, y, x, d, quiet, t)
  {
    forall d | d in spaces
      ensures !LeapTo(s, p, y, x, d, quiet, t)
    {
      var k :| 0 <= k < |spaces| && spaces[k] == d;
      assert Unit(d) && Blocked(s, p, y, x, d);
      assert RaySquare(y, x, d, 1) == Index(y + d.y, x + d.x);
    }
  }

  /** A move that neither starts nor ends on the first king of `p` keeps it first. */
  lemma KingStaysFirst(s: Position, p: Player, k: int, from: int, to: int)
    requires |s| == 64 && 0 <= k < 64 && 0 <= from < 64 && 0 <= to < 64 && from != k && to != k
    requires FirstIndexOf(s, p, King) == Some(k)
    requires s[from].Some? && !IsOccupiedBy(s, from, p, King)
    ensures FirstIndexOf(AfterMove(s, from, to), p, King) == Some(k)
  {
    var a := AfterMove(s, from, to);
    forall j | 0 <= j < k
      ensures !IsOccupiedBy(a, j, p, King)
    {
      if j == from {
        assert a[j] == None;
      } else if j == to {
        assert a[j] == Some(Moved(s[from].value));
      } else {
        assert a[j] == s[j];
        assert !IsOccupiedBy(s, j, p, King);
      }
    }
    assert IsOccupiedBy(a, k, p, King);
  }

  /** Moving the only king of `p` makes its destination the first king of `p`. */
  lemma OnlyKingMoves(s: Position, p: Player, k: int, to: int)
    requires |s| == 64 && 0 <= k < 64 && 0 <= to < 64 && to != k && IsOccupiedBy(s, k, p, King)
    requires forall j :: 0 <= j < 64 && j != k ==> !IsOccupiedBy(s, j, p, King)
    ensures FirstIndexOf(AfterMove(s, k, to), p, King) == Some(to)
  {
    var a := AfterMove(s, k, to);
    forall j | 0 <= j < to
      ensures !IsOccupiedBy(a, j, p, King)
    {
      if j == k {
        assert a[j] == None;
      } else {
        assert a[j] == s[j];
        assert !IsOccupiedBy(s, j, p, King);
      }
    }
    assert IsOccupiedBy(a, to, p, King);
  }

  // ---------------------------------------------------------------------
  // The start position: White's twenty moves

  /** The reference answer: White's legal moves from the start, square by
      square. Each pawn (on line 1) goes one square ahead, or two with the
      MoveTwoSpaces tag; the knight on b1 goes to a3 or c3, the knight on g1
      to f3 or h3; no other piece can move. */
  function OpeningMoves(i: int): map<int, MoveType>
  {
    if 0 <= i < 64 && i % 8 == 1 then map[i + 1 := Default, i + 2 := MoveTwoSpaces]
    else if i == Index(1, 0) then map[Index(0, 2) := Default, Index(2, 2) := Default]
    else if i == Index(6, 0) then map[Index(5, 2) := Default, Index(7, 2) := Default]
    else map[]
  }

  /** The squares of the position after one of White's opening moves. */
  lemma AfterOpening(i: int, t: int, j: int)
    requires t in OpeningMoves(i) && 0 <= j < 64
    ensures 0 <= i < 64 && 0 <= t < 64 && i != t
    ensures StartPosition()[i] == StartOccupant(i / 8, i % 8)
    ensures StartPosition()[i].Some? && StartPosition()[i].value.player == White
    ensures StartPosition()[i].value.name != King
    ensures (i % 8 == 0 || i % 8 == 1) && (t % 8 == 2 || t % 8 == 3)
    ensures AfterMove(StartPosition(), i, t)[j] ==
      if j == i then None
      else if j == t then Some(Moved(StartPosition()[i].value))
      else StartOccupant(j / 8, j % 8)
  {
  }

  /** White's king stays the first (and only) White king, on e1. */
  lemma OpeningKeepsKing(i: int, t: int)
    requires t in OpeningMoves(i)
    ensures 0 <= i < 64 && 0 <= t < 64 && StartPosition()[i].Some?
    ensures FirstIndexOf(AfterMove(StartPosition(), i, t), White, King) == Some(Index(4, 0))
  {
    AfterOpening(i, t, 0);
    var s := AfterMove(StartPosition(), i, t);
    forall j | 0 <= j < Index(4, 0)
      ensures !IsOccupiedBy(s, j, White, King)
    {
      AfterOpening(i, t, j);
    }
    AfterOpening(i, t, Index(4, 0));
    assert IsOccupiedBy(s, Index(4, 0), White, King);
  }

  /** No Black piece stands on the lines 0 to 5 after an opening move. */
  lemma OpeningNoBlackNear(i: int, t: int, col: int, line: int)
    requires t in OpeningMoves(i) && InRange(col, line) && line <= 5
    ensures 0 <= i < 64 && 0 <= t < 64 && StartPosition()[i].Some?
    ensures var o := AfterMove(StartPosition(), i, t)[Index(col, line)];
      o.Some? ==> o.value.player == White
  {
    IndexBounds(col, line);
    AfterOpening(i, t, Index(col, line));
  }

  /** No Black pawn or knight attacks e1 after an opening move. */
  lemma OpeningNoLeapCheck(i: int, t: int)
    requires t in OpeningMoves(i)
    ensures 0 <= i < 64 && 0 <= t < 64 && StartPosition()[i].Some?
    ensures !PawnCheck(AfterMove(StartPosition(), i, t), White, 4, 0)
    ensures !KnightCheck(AfterMove(StartPosition(), i, t), White, 4, 0)
  {
    AfterOpening(i, t, 0);
    var s := AfterMove(StartPosition(), i, t);
    forall k | 0 <= k < 8
      ensures !OccupiedAt(s, 4, 0, KNIGHT_SPACES[k], Black, Knight)
    {
      var d := KNIGHT_SPACES[k];
      if InRange(4 + d.y, d.x) {
        OpeningNoBlackNear(i, t, 4 + d.y, d.x);
      }
    }
    forall k | 0 <= k < 2
      ensures !OccupiedAt(s, 4, 0, PawnDiagonals(White)[k], Black, Pawn)
    {
      var d := PawnDiagonals(White)[k];
      OpeningNoBlackNear(i, t, 4 + d.y, d.x);
    }
  }

  /** Up the e-file from e1: the e-pawn, or the square it moved to. */
  lemma OpeningRayUp(i: int, t: int)
    requires t in OpeningMoves(i)
    ensures 0 <= i < 64 && 0 <= t < 64 && StartPosition()[i].Some?
    ensures !RayAttack(AfterMove(StartPosition(), i, t), White, 4, 0, UP, 0)
  {
    AfterOpening(i, t, Index(4, 1));
    var s := AfterMove(StartPosition(), i, t);
    RayStep(s, White, 4, 0, UP, 0, 4, 1);
    if i == Index(4, 1) {
      AfterOpening(i, t, Index(4, 2));
      RayStep(s, White, 4, 1, UP, 1, 4, 2);
      if t != Index(4, 2) {
        AfterOpening(i, t, Index(4, 3));
        RayStep(s, White, 4, 2, UP, 2, 4, 3);
      }
    }
  }

  /** Up the diagonal e1-h4: the f-pawn, or, once it moved, g3 and h4 empty
      and the edge of the board. */
  lemma OpeningRayUpRight(i: int, t: int)
    requires t in OpeningMoves(i)
    ensures 0 <= i < 64 && 0 <= t < 64 && StartPosition()[i].Some?
    ensures !RayAttack(AfterMove(StartPosition(), i, t), White, 4, 0, UP_RIGHT, 0)
  {
    AfterOpening(i, t, Index(5, 1));
    var s := AfterMove(StartPosition(), i, t);
    RayStep(s, White, 4, 0, UP_RIGHT, 0, 5, 1);
    if i == Index(5, 1) {
      AfterOpening(i, t, Index(6, 2));
      AfterOpening(i, t, Index(7, 3));
      RayStep(s, White, 5, 1, UP_RIGHT, 1, 6, 2);
      RayStep(s, White, 6, 2, UP_RIGHT, 2, 7, 3);
    }
  }

  /** Up the diagonal e1-a5: the d-pawn, or, once it moved, c3, b4 and a5
      empty and the edge of the board. */
  lemma OpeningRayUpLeft(i: int, t: int)
    requires t in OpeningMoves(i)
    ensures 0 <= i < 64 && 0 <= t < 64 && StartPosition()[i].Some?
    ensures !RayAttack(AfterMove(StartPosition(), i, t), White, 4, 0, UP_LEFT, 0)
  {
    AfterOpening(i, t, Index(3, 1));
    var s := AfterMove(StartPosition(), i, t);
    RayStep(s, White, 4, 0, UP_LEFT, 0, 3, 1);
    if i == Index(3, 1) {
      AfterOpening(i, t, Index(2, 2));
      AfterOpening(i, t, Index(1, 3));
      AfterOpening(i, t, Index(0, 4));
      RayStep(s, White, 3, 1, UP_LEFT, 1, 2, 2);
      RayStep(s, White, 2, 2, UP_LEFT, 2, 1, 3);
      RayStep(s, White, 1, 3, UP_LEFT, 3, 0, 4);
    }
  }

  /** No ray from e1 meets a Black piece first after an opening move: the
      three rays down leave the board at once, and the queen on d1 and the
      bishop on f1 close the first line. */
  lemma OpeningRays(i: int, t: int, k: int)
    requires t in OpeningMoves(i) && 0 <= k < 8
    ensures 0 <= i < 64 && 0 <= t < 64 && StartPosition()[i].Some?
    ensures !RayAttack(AfterMove(StartPosition(), i, t), White, 4, 0, ROYALTY_SPACES[k], 0)
  {
    assert ROYALTY_SPACES == [UP_LEFT, UP_RIGHT, DOWN_LEFT, DOWN_RIGHT, UP, RIGHT, DOWN, LEFT];
    AfterOpening(i, t, 0);
    if k == 0 {
      OpeningRayUpLeft(i, t);
    } else if k == 1 {
      OpeningRayUpRight(i, t);
    } else if k == 4 {
      OpeningRayUp(i, t);
    } else if k == 5 {
      AfterOpening(i, t, Index(5, 0));
    } else if k == 7 {
      AfterOpening(i, t, Index(3, 0));
    }
  }

  /** None of White's opening moves leaves White in check. */
  lemma OpeningIsSafe(i: int, t: int)
    requires t in OpeningMoves(i)
    ensures 0 <= i < 64 && 0 <= t < 64 && StartPosition()[i].Some?
    ensures Safe(StartPosition(), White, i, t)
  {
    OpeningKeepsKing(i, t);
    OpeningNoLeapCheck(i, t);
    var s := AfterMove(StartPosition(), i, t);
    forall k | 0 <= k < 8
      ensures !RayAttack(s, White, 4, 0, ROYALTY_SPACES[k], 0)
    {
      OpeningRays(i, t, k);
    }
  }

  /** The same, for all the opening moves of one square at once. */
  lemma OpeningAllSafe(i: int)
    requires OpeningMoves(i) != map[]
    ensures 0 <= i < 64 && StartPosition()[i].Some?
    ensures forall t :: t in OpeningMoves(i) ==> 0 <= t < 64 && Safe(StartPosition(), White, i, t)
  {
    var t :| t in OpeningMoves(i);
    AfterOpening(i, t, 0);
    forall t | t in OpeningMoves(i)
      ensures 0 <= t < 64 && Safe(StartPosition(), White, i, t)
    {
      OpeningIsSafe(i, t);
    }
  }

  /** Every first step from White's back line is blocked at the start: up
      the board by the pawns, along the line by the other back-line pieces,
      and down the board by the edge. */
  lemma StartBackLineBlocked(col: int, d: Offset)
    requires 0 <= col < 8 && Unit(d)
    ensures Blocked(StartPosition(), White, col, 0, d)
  {
    var ny, nx := Along(col, d.y, 1), Along(0, d.x, 1);
    if InRange(ny, nx) {
      StartAt(ny, nx);
    }
  }

  /** The rooks, bishops, queen and king have no move by the rules at the start. */
  lemma StartBackLineRule(i: int, t: int, mt: MoveType)
    requires 0 <= i < 64 && i % 8 == 0 && i != Index(1, 0) && i != Index(6, 0)
    ensures StartPosition()[i].Some?
    ensures !Rule(StartPosition(), i, t, mt)
  {
    var s := StartPosition();
    var col := i / 8;
    StartAt(col, 0);
    SpacesShape();
    forall d | Unit(d)
      ensures Blocked(s, White, col, 0, d)
    {
      StartBackLineBlocked(col, d);
    }
    BoxedIn(s, White, col, 0, BISHOP_SPACES, t);
    BoxedIn(s, White, col, 0, ROOK_SPACES, t);
    BoxedIn(s, White, col, 0, ROYALTY_SPACES, t);
    LeapsBoxedIn(s, White, col, 0, ROYALTY_SPACES, true, t);
  }

  /** A pawn may go one square ahead, or two with MoveTwoSpaces, and has
      nothing to capture. */
  lemma StartPawnRule(y: int, t: int, mt: MoveType)
    requires 0 <= y < 8
    ensures StartPosition()[Index(y, 1)].Some?
    ensures Rule(StartPosition(), Index(y, 1), t, mt) <==>
      (t == Index(y, 2) && mt == Default) || (t == Index(y, 3) && mt == MoveTwoSpaces)
  {
    var s, i := StartPosition(), Index(y, 1);
    IndexBounds(y, 1);
    StartAt(y, 1);
    StartAt(y, 2);
    StartAt(y, 3);
    assert s[i] == Some(Piece(White, Pawn, 0, map[]));
    assert IsEmpty(s, Index(y, 2)) && IsEmpty(s, Index(y, 3));
    StartPawnCapture(y, t, mt);
  }

  /** At the start the squares diagonally ahead of a pawn are empty. */
  lemma StartPawnCapture(y: int, t: int, mt: MoveType)
    requires 0 <= y < 8
    ensures StartPosition()[Index(y, 1)].Some?
    ensures !PawnCaptureRule(StartPosition(), y, 1, t, mt)
  {
    StartAt(y, 1);
    if y > 0 {
      StartAt(y - 1, 2);
    }
    if y < 7 {
      StartAt(y + 1, 2);
    }
  }

  /** A knight on b1 or g1 may go to the two squares two lines ahead of it;
      its other leaps leave the board or land on its own pawns. */
  lemma StartKnightRule(col: int, t: int)
    requires col == 1 || col == 6
    ensures (exists d :: d in KNIGHT_SPACES && LeapTo(StartPosition(), White, col, 0, d, true, t)) <==>
      t == Index(col - 1, 2) || t == Index(col + 1, 2)
  {
    var s := StartPosition();
    if exists d :: d in KNIGHT_SPACES && LeapTo(s, White, col, 0, d, true, t) {
      var d :| d in KNIGHT_SPACES && LeapTo(s, White, col, 0, d, true, t);
      var k :| 0 <= k < 8 && KNIGHT_SPACES[k] == d;
      StartKnightLeap(col, k, t);
    }
    StartKnightReaches(col);
  }

  /** The knight's leaps to the two squares two lines ahead of it are open. */
  lemma StartKnightReaches(col: int)
    requires col == 1 || col == 6
    ensures LeapTo(StartPosition(), White, col, 0, KNIGHT_SPACES[3], true, Index(col - 1, 2))
    ensures LeapTo(StartPosition(), White, col, 0, KNIGHT_SPACES[4], true, Index(col + 1, 2))
  {
    var s := StartPosition();
    StartAt(col - 1, 2);
    StartAt(col + 1, 2);
    assert KNIGHT_SPACES[3] == Offset(-1, 2) && KNIGHT_SPACES[4] == Offset(1, 2);
    assert IsEmpty(s, Index(col - 1, 2)) && IsEmpty(s, Index(col + 1, 2));
  }

  /** The movement rules of a knight on b1 or g1 at the start, as `Rule`. */
  lemma StartKnightRuleIs(col: int, t: int, mt: MoveType)
    requires col == 1 || col == 6
    ensures StartPosition()[Index(col, 0)].Some?
    ensures Rule(StartPosition(), Index(col, 0), t, mt) <==>
      mt == Default && (t == Index(col - 1, 2) || t == Index(col + 1, 2))
  {
    var s, i := StartPosition(), Index(col, 0);
    StartAt(col, 0);
    IndexBounds(col, 0);
    assert s[i].value.name == Knight && s[i].value.player == White;
    StartKnightRule(col, t);
  }

  /** The same, against the reference map. */
  lemma StartKnightRuleMap(col: int, t: int, mt: MoveType)
    requires col == 1 || col == 6
    ensures StartPosition()[Index(col, 0)].Some?
    ensures Rule(StartPosition(), Index(col, 0), t, mt) <==>
      t in OpeningMoves(Index(col, 0)) && OpeningMoves(Index(col, 0))[t] == mt
  {
    StartKnightRuleIs(col, t, mt);
    var e := OpeningMoves(Index(col, 0));
    assert e == map[Index(col - 1, 2) := Default, Index(col + 1, 2) := Default];
  }

  /** One leap of a knight on b1 or g1 at the start. */
  lemma StartKnightLeap(col: int, k: int, t: int)
    requires col == 1 || col == 6
    requires 0 <= k < 8 && LeapTo(StartPosition(), White, col, 0, KNIGHT_SPACES[k], true, t)
    ensures t == Index(col - 1, 2) || t == Index(col + 1, 2)
  {
    var d := KNIGHT_SPACES[k];
    assert d.x >= 1 && (d.x == 1 ==> d.y == -2 || d.y == 2);
    if d.x == 1 {
      StartAt(col + d.y, 1);
    }
  }

  /** The map of recorded moves is `e` when the rules allow exactly the
      moves of `e`, each of them safe. */
  lemma LegalMovesAre(s: Position, i: int, e: map<int, MoveType>)
    requires |s| == 64 && 0 <= i < 64 && s[i].Some?
    requires forall t, mt :: Rule(s, i, t, mt) ==> t in e && e[t] == mt
    requires forall t :: t in e ==> 0 <= t < 64 && Rule(s, i, t, e[t]) && Safe(s, s[i].value.player, i, t)
    ensures LegalMoves(s, i) == e
  {
    var lm := LegalMoves(s, i);
    forall t
      ensures t in lm <==> t in e
      ensures t in lm ==> lm[t] == e[t]
    {
      LegalMovesIff(s, i, t);
    }
  }

  lemma StartPawnMoves(i: int)
    requires 0 <= i < 64 && i % 8 == 1
    ensures StartPosition()[i].Some?
    ensures LegalMoves(StartPosition(), i) == OpeningMoves(i)
  {
    var s := StartPosition();
    var e := OpeningMoves(i);
    var y := i / 8;
    assert i == Index(y, 1);
    forall t, mt
      ensures Rule(s, i, t, mt) <==> (t == i + 1 && mt == Default) || (t == i + 2 && mt == MoveTwoSpaces)
    {
      StartPawnRule(y, t, mt);
    }
    assert i + 1 in e;
    OpeningAllSafe(i);
    LegalMovesAre(s, i, e);
  }

  lemma StartKnightMoves(col: int)
    requires col == 1 || col == 6
    ensures StartPosition()[Index(col, 0)].Some?
    ensures LegalMoves(StartPosition(), Index(col, 0)) == OpeningMoves(Index(col, 0))
  {
    var s := StartPosition();
    var i := Index(col, 0);
    var e := OpeningMoves(i);
    StartAt(col, 0);
    forall t, mt
      ensures Rule(s, i, t, mt) <==> t in e && e[t] == mt
    {
      StartKnightRuleMap(col, t, mt);
    }
    assert Index(col - 1, 2) in e;
    OpeningAllSafe(i);
    LegalMovesAre(s, i, e);
  }

  lemma StartBackLineMoves(i: int)
    requires 0 <= i < 64 && i % 8 == 0 && i != Index(1, 0) && i != Index(6, 0)
    ensures StartPosition()[i].Some?
    ensures LegalMoves(StartPosition(), i) == OpeningMoves(i) == map[]
  {
    var s := StartPosition();
    forall t, mt
      ensures !Rule(s, i, t, mt)
    {
      StartBackLineRule(i, t, mt);
    }
    LegalMovesAre(s, i, map[]);
  }

  /** From the start, every White piece has exactly its reference moves. */
  lemma StartMoves(i: int)
    requires 0 <= i < 64 && StartPosition()[i].Some? && StartPosition()[i].value.player == White
    ensures LegalMoves(StartPosition(), i) == OpeningMoves(i)
  {
    DecodeIndex(i);
    StartAt(i / 8, i % 8);
    if i % 8 == 1 {
      StartPawnMoves(i);
    } else if i == Index(1, 0) || i == Index(6, 0) {
      StartKnightMoves(i / 8);
    } else {
      StartBackLineMoves(i);
    }
  }

  /** The number of legal moves of `p`'s pieces on the squares below `n`. */
  function MoveTotal(s: Position, p: Player, n: int): nat
    requires |s| == 64 && 0 <= n <= 64
  {
    if n == 0 then 0
    else MoveTotal(s, p, n - 1) + (if s[n - 1].Some? && s[n - 1].value.player == p then |LegalMoves(s, n - 1)| else 0)
  }

  /** What one square of the start position adds to White's total: two
      moves for each pawn and each knight, none otherwise. */
  lemma StartSquareCount(i: int)
    requires 0 <= i < 64
    ensures (if StartPosition()[i].Some? && StartPosition()[i].value.player == White then |LegalMoves(StartPosition(), i)| else 0)
      == (if i % 8 == 1 || i == Index(1, 0) || i == Index(6, 0) then 2 else 0)
  {
    var s := StartPosition();
    assert s[i] == StartOccupant(i / 8, i % 8);
    if s[i].Some? && s[i].value.player == White {
      StartMoves(i);
      OpeningMovesCount(i);
    }
  }

  /** Each reference map of a pawn or a knight holds two moves. */
  lemma OpeningMovesCount(i: int)
    requires 0 <= i < 64
    ensures |OpeningMoves(i)| == if i % 8 == 1 || i == Index(1, 0) || i == Index(6, 0) then 2 else 0
  {
    if i % 8 == 1 {
      assert OpeningMoves(i) == map[i + 1 := Default][i + 2 := MoveTwoSpaces];
    } else if i == Index(1, 0) {
      assert OpeningMoves(i) == map[Index(0, 2) := Default][Index(2, 2) := Default];
    } else if i == Index(6, 0) {
      assert OpeningMoves(i) == map[Index(5, 2) := Default][Index(7, 2) := Default];
    }
  }

  /** Two moves for each pawn and each knight of the start position below square `n`. */
  function StartCountBelow(n: int): int
  {
    2 * ((n + 6) / 8) + (if n > Index(1, 0) then 2 else 0) + (if n > Index(6, 0) then 2 else 0)
  }

  /** Square `i` adds two when it holds a pawn or a knight at the start. */
  lemma StartCountStep(i: int)
    requires 0 <= i
    ensures StartCountBelow(i + 1) == StartCountBelow(i) + (if i % 8 == 1 || i == Index(1, 0) || i == Index(6, 0) then 2 else 0)
  {
    assert (i + 7) / 8 == (i + 6) / 8 + (if i % 8 == 1 then 1 else 0);
  }

  /** Below square `n` of the start position White has two moves per pawn
      and per knight. */
  lemma {:induction false} StartMoveTotalBelow(n: int)
    requires 0 <= n <= 64
    ensures MoveTotal(StartPosition(), White, n) == StartCountBelow(n)
  {
    if n > 0 {
      var s, i := StartPosition(), n - 1;
      StartMoveTotalBelow(i);
      StartSquareCount(i);
      StartCountStep(i);
      assert MoveTotal(s, White, n) == MoveTotal(s, White, i) +
        (if s[i].Some? && s[i].value.player == White then |LegalMoves(s, i)| else 0);
    }
  }

  /** From the start position White has exactly twenty legal moves. */
  lemma StartMoveTotal()
    ensures MoveTotal(StartPosition(), White, 64) == 20
  {
    StartMoveTotalBelow(64);
  }

  // ---------------------------------------------------------------------
  // The fool's mate: 1. f3 e5 2. g4 Qh4

  /** The position after 1. f3. */
  function FoolsAfterF3(): (s: Position)
    ensures |s| == 64
  {
    StartAt(5, 1);
    AfterMove(StartPosition(), Index(5, 1), Index(5, 2))
  }

  /** The position after 1. f3 e5. */
  function FoolsAfterE5(): (s: Position)
    ensures |s| == 64
  {
    StartAt(4, 6);
    AfterMove(FoolsAfterF3(), Index(4, 6), Index(4, 4))
  }

  /** The position after 1. f3 e5 2. g4. */
  function FoolsAfterG4(): (s: Position)
    ensures |s| == 64
  {
    StartAt(6, 1);
    AfterMove(FoolsAfterE5(), Index(6, 1), Index(6, 3))
  }

  /** The position after 1. f3 e5 2. g4 Qh4, played with `AfterMove`. */
  function FoolsMate(): (s: Position)
    ensures |s| == 64
  {
    StartAt(3, 7);
    AfterMove(FoolsAfterG4(), Index(3, 7), Index(7, 3))
  }

  /** The reference layout of the fool's mate, square by square: the start
      position with the f- and g-pawns on f3 and g4, the e-pawn on e5 and
      the Black queen on h4, each of them moved once. */
  function FoolsOccupant(col: int, line: int): Option<Piece>
    requires 0 <= col < 8
  {
    if (col == 5 && line == 2) || (col == 6 && line == 3) then Some(Piece(White, Pawn, 1, map[]))
    else if col == 4 && line == 4 then Some(Piece(Black, Pawn, 1, map[]))
    else if col == 7 && line == 3 then Some(Piece(Black, Queen, 1, map[]))
    else if (col == 5 && line == 1) || (col == 6 && line == 1) || (col == 4 && line == 6) || (col == 3 && line == 7) then None
    else StartOccupant(col, line)
  }

  /** A position laid out as the fool's mate. */
  ghost predicate FoolsLayout(s: Position)
  {
    |s| == 64 && forall j :: 0 <= j < 64 ==> s[j] == FoolsOccupant(j / 8, j % 8)
  }

  /** The four moves produce the reference layout. */
  lemma FoolsAt(j: int)
    requires 0 <= j < 64
    ensures FoolsMate()[j] == FoolsOccupant(j / 8, j % 8)
  {
    assert StartPosition()[j] == StartOccupant(j / 8, j % 8);
    StartAt(5, 1);
    StartAt(4, 6);
    StartAt(6, 1);
    StartAt(3, 7);
  }

  lemma FoolsMateLayout()
    ensures FoolsLayout(FoolsMate())
  {
    forall j | 0 <= j < 64
      ensures FoolsMate()[j] == FoolsOccupant(j / 8, j % 8)
    {
      FoolsAt(j);
    }
  }

  /** The square `(col, line)` of the fool's mate. */
  lemma FoolsSquare(s: Position, col: int, line: int)
    requires FoolsLayout(s) && InRange(col, line)
    ensures s[Index(col, line)] == FoolsOccupant(col, line)
  {
    IndexBounds(col, line);
  }

  /** The Black queen on h4 checks a White king on e1 or f2 when the
      squares between them on the diagonal are empty. */
  lemma QueenOnH4Checks(s: Position, col: int)
    requires |s| == 64 && (col == 4 || col == 5)
    requires FirstIndexOf(s, White, King) == Some(Index(col, col - 4))
    requires col == 4 ==> IsEmpty(s, Index(5, 1))
    requires IsEmpty(s, Index(6, 2))
    requires IsOccupiedBy(s, Index(7, 3), Black, Queen)
    ensures Checked(s, White)
  {
    assert ROYALTY_SPACES[1] == UP_RIGHT;
    IndexBounds(col, col - 4);
    if col == 4 {
      RayStep(s, White, 4, 0, UP_RIGHT, 0, 5, 1);
    }
    RayStep(s, White, 5, 1, UP_RIGHT, 1, 6, 2);
    RayStep(s, White, 6, 2, UP_RIGHT, 2, 7, 3);
    if col == 4 {
      assert RayAttack(s, White, 4, 0, ROYALTY_SPACES[1], 0);
    } else {
      assert RayAttack(s, White, 5, 1, ROYALTY_SPACES[1], 0);
    }
  }

  /** White's king on e1 is the only White king of the fool's mate. */
  lemma FoolsKing(s: Position)
    requires FoolsLayout(s)
    ensures forall j :: 0 <= j < 64 && j != Index(4, 0) ==> !IsOccupiedBy(s, j, White, King)
    ensures FirstIndexOf(s, White, King) == Some(Index(4, 0))
  {
    forall j | 0 <= j < 64 && j != Index(4, 0)
      ensures !IsOccupiedBy(s, j, White, King)
    {
    }
    FoolsSquare(s, 4, 0);
    assert IsOccupiedBy(s, Index(4, 0), White, King);
  }

  /** After the fool's mate White is in check. */
  lemma FoolsChecked()
    ensures Checked(FoolsMate(), White)
  {
    var s := FoolsMate();
    FoolsMateLayout();
    FoolsKing(s);
    FoolsSquare(s, 5, 1);
    FoolsSquare(s, 6, 2);
    FoolsSquare(s, 7, 3);
    QueenOnH4Checks(s, 4);
  }

  /** Every first step from White's back line is blocked in the fool's mate,
      except a step onto f2 or g2, which the pawns have left. */
  lemma FoolsBackLineBlocked(s: Position, col: int, d: Offset)
    requires FoolsLayout(s) && 0 <= col < 8 && Unit(d)
    requires d.x > 0 ==> Along(col, d.y, 1) != 5 && Along(col, d.y, 1) != 6
    ensures Blocked(s, White, col, 0, d)
  {
    var ny, nx := Along(col, d.y, 1), Along(0, d.x, 1);
    if InRange(ny, nx) {
      FoolsSquare(s, ny, nx);
    }
  }

  /** The rooks, the bishop on c1 and the queen have no move by the rules. */
  lemma FoolsBackLineRule(s: Position, col: int, t: int, mt: MoveType)
    requires FoolsLayout(s) && (col == 0 || col == 2 || col == 3 || col == 7)
    ensures s[Index(col, 0)].Some?
    ensures !Rule(s, Index(col, 0), t, mt)
  {
    FoolsSquare(s, col, 0);
    IndexBounds(col, 0);
    SpacesShape();
    forall d | Unit(d) && (col == 7 ==> d != UP_LEFT)
      ensures Blocked(s, White, col, 0, d)
    {
      FoolsBackLineBlocked(s, col, d);
    }
    BoxedIn(s, White, col, 0, ROOK_SPACES, t);
    if col != 7 {
      BoxedIn(s, White, col, 0, BISHOP_SPACES, t);
      BoxedIn(s, White, col, 0, ROYALTY_SPACES, t);
    }
  }

  /** The bishop on f1 may only go to g2 or h3, which the g-pawn has opened. */
  lemma FoolsBishopTargets(s: Position, t: int)
    requires FoolsLayout(s) && SlideRule(s, White, 5, 0, BISHOP_SPACES, t)
    ensures t == Index(6, 1) || t == Index(7, 2)
  {
    var d, m :| d in BISHOP_SPACES && RayReach(s, White, 5, 0, d, m) && t == RaySquare(5, 0, d, m);
    if d != UP_RIGHT {
      FoolsBackLineBlocked(s, 5, d);
      BlockedReachesNothing(s, White, 5, 0, d, m);
    }
  }

  /** The knights' leaps land on none of e1, f2, g3 and h4. */
  lemma FoolsKnightTargets(s: Position, col: int, t: int)
    requires |s| == 64 && (col == 1 || col == 6)
    requires exists d :: d in KNIGHT_SPACES && LeapTo(s, White, col, 0, d, true, t)
    ensures t != Index(4, 0) && t != Index(5, 1) && t != Index(6, 2) && t != Index(7, 3)
  {
    var d :| d in KNIGHT_SPACES && LeapTo(s, White, col, 0, d, true, t);
    var k :| 0 <= k < 8 && KNIGHT_SPACES[k] == d;
  }

  /** No White pawn can go to e1, f2, g3 or h4: f2 is behind every pawn, g3
      is neither ahead of a pawn nor occupied, and h4 is held by the queen
      in front of the h-pawn. */
  lemma FoolsPawnTargets(s: Position, y: int, x: int, t: int, mt: MoveType)
    requires FoolsLayout(s) && InRange(y, x) && s[Index(y, x)].Some?
    requires s[Index(y, x)].value.player == White && s[Index(y, x)].value.name == Pawn
    requires PawnRule(s, y, x, t, mt)
    ensures t != Index(4, 0) && t != Index(5, 1) && t != Index(6, 2) && t != Index(7, 3)
  {
    FoolsSquare(s, y, x);
    FoolsSquare(s, 5, 1);
    FoolsSquare(s, 6, 1);
    FoolsSquare(s, 6, 2);
    FoolsSquare(s, 7, 2);
    FoolsSquare(s, 7, 3);
    assert x >= 1;
  }

  /** The king on e1 may only step onto f2. */
  lemma FoolsKingRule(s: Position, t: int, mt: MoveType)
    requires FoolsLayout(s) && s[Index(4, 0)].Some? && Rule(s, Index(4, 0), t, mt)
    ensures t == Index(5, 1)
  {
    FoolsSquare(s, 4, 0);
    var d :| d in ROYALTY_SPACES && LeapTo(s, White, 4, 0, d, true, t);
    var k :| 0 <= k < 8 && ROYALTY_SPACES[k] == d;
    if d != UP_RIGHT {
      FoolsBackLineBlocked(s, 4, d);
    }
  }

  /** No move of a White piece other than the king interposes on f2 or g3
      or takes the queen on h4, and none lands on the king's square. */
  lemma FoolsTargets(s: Position, i: int, t: int, mt: MoveType)
    requires FoolsLayout(s) && 0 <= i < 64 && i != Index(4, 0)
    requires s[i].Some? && s[i].value.player == White && Rule(s, i, t, mt)
    ensures t != Index(4, 0) && t != Index(5, 1) && t != Index(6, 2) && t != Index(7, 3)
  {
    var y, x := i / 8, i % 8;
    DecodeIndex(i);
    FoolsSquare(s, y, x);
    if x != 0 {
      FoolsPawnTargets(s, y, x, t, mt);
    } else if y == 1 || y == 6 {
      FoolsKnightTargets(s, y, t);
    } else if y == 5 {
      FoolsBishopTargets(s, t);
    } else {
      FoolsBackLineRule(s, y, t, mt);
    }
  }

  /** After any move of a White piece other than the king, the queen on h4
      still checks the king on e1. */
  lemma FoolsOtherMoveChecked(s: Position, i: int, t: int, mt: MoveType)
    requires FoolsLayout(s) && 0 <= i < 64 && 0 <= t < 64 && i != Index(4, 0)
    requires s[i].Some? && s[i].value.player == White && Rule(s, i, t, mt)
    ensures Checked(AfterMove(s, i, t), White)
  {
    FoolsTargets(s, i, t, mt);
    FoolsKing(s);
    FoolsSquare(s, 5, 1);
    FoolsSquare(s, 6, 2);
    FoolsSquare(s, 7, 3);
    var a := AfterMove(s, i, t);
    KingStaysFirst(s, White, Index(4, 0), i, t);
    QueenOnH4Checks(a, 4);
  }

  /** After the king steps onto f2, the queen on h4 checks it there. */
  lemma FoolsKingMoveChecked(s: Position, t: int, mt: MoveType)
    requires FoolsLayout(s) && 0 <= t < 64 && s[Index(4, 0)].Some? && Rule(s, Index(4, 0), t, mt)
    ensures Checked(AfterMove(s, Index(4, 0), t), White)
  {
    FoolsKingRule(s, t, mt);
    FoolsKing(s);
    FoolsSquare(s, 6, 2);
    FoolsSquare(s, 7, 3);
    var a := AfterMove(s, Index(4, 0), t);
    OnlyKingMoves(s, White, Index(4, 0), t);
    QueenOnH4Checks(a, 5);
  }

  /** In a position laid out as the fool's mate no White piece has a legal move. */
  lemma FoolsNoMoves(s: Position, i: int)
    requires FoolsLayout(s) && 0 <= i < 64 && s[i].Some? && s[i].value.player == White
    ensures LegalMoves(s, i) == map[]
  {
    forall t, mt | 0 <= t < 64 && Rule(s, i, t, mt)
      ensures !Safe(s, White, i, t)
    {
      if i == Index(4, 0) {
        FoolsKingMoveChecked(s, t, mt);
      } else {
        FoolsOtherMoveChecked(s, i, t, mt);
      }
    }
    forall t
      ensures t !in LegalMoves(s, i)
    {
      LegalMovesIff(s, i, t);
    }
  }

  /** The fool's mate is checkmate: White is in check and none of its
      pieces has a legal move. */
  lemma FoolsMateIsMate()
    ensures Checked(FoolsMate(), White)
    ensures forall i :: 0 <= i < 64 && FoolsMate()[i].Some? && FoolsMate()[i].value.player == White ==>
      LegalMoves(FoolsMate(), i) == map[]
  {
    var s := FoolsMate();
    FoolsChecked();
    FoolsMateLayout();
    forall i | 0 <= i < 64 && s[i].Some? && s[i].value.player == White
      ensures LegalMoves(s, i) == map[]
    {
      FoolsNoMoves(s, i);
    }
  }

  // ---------------------------------------------------------------------
  // The fool's mate, move by move: each move is one the engine records

  /** A position that is the start position except on the squares of `ch`. */
  ghost predicate StartExcept(s: Position, ch: map<int, Option<Piece>>)
  {
    |s| == 64 && forall j :: 0 <= j < 64 ==> s[j] == if j in ch then ch[j] else StartOccupant(j / 8, j % 8)
  }

  lemma StartExceptAt(s: Position, ch: map<int, Option<Piece>>, col: int, line: int)
    requires StartExcept(s, ch) && InRange(col, line)
    ensures s[Index(col, line)] == if Index(col, line) in ch then ch[Index(col, line)] else StartOccupant(col, line)
  {
    IndexBounds(col, line);
  }

  /** A move adds its two squares to the changed ones. */
  lemma StartExceptMove(s: Position, ch: map<int, Option<Piece>>, from: int, to: int)
    requires StartExcept(s, ch) && 0 <= from < 64 && 0 <= to < 64 && from != to && s[from].Some?
    ensures StartExcept(AfterMove(s, from, to), ch[to := Some(Moved(s[from].value))][from := None])
  {
  }

  /** The squares changed by 1. f3 e5, and by 1. f3 e5 2. g4. */
  const AFTER_E5: map<int, Option<Piece>> :=
    map[Index(5, 1) := None, Index(5, 2) := Some(Piece(White, Pawn, 1, map[])),
        Index(4, 6) := None, Index(4, 4) := Some(Piece(Black, Pawn, 1, map[]))]
  const AFTER_G4: map<int, Option<Piece>> :=
    AFTER_E5[Index(6, 1) := None][Index(6, 3) := Some(Piece(White, Pawn, 1, map[]))]

  /** The first occupied square along `d` from `(y, x)` is the `n`-th, or
      the ray leaves the board there, and it is not an enemy: the ray gives no check. */
  lemma RayShielded(s: Position, p: Player, y: int, x: int, d: Offset, n: int)
    requires |s| == 64 && InRange(y, x) && Unit(d) && n >= 1
    requires forall m :: 1 <= m < n ==> OnRay(y, x, d, m) && IsEmpty(s, RaySquare(y, x, d, m))
    requires !OnRay(y, x, d, n) || (s[RaySquare(y, x, d, n)].Some? && s[RaySquare(y, x, d, n)].value.player == p)
    ensures !RayAttack(s, p, y, x, d, 0)
  {
    RayAttackIff(s, p, y, x, d, 0);
    forall n' | FirstOccupiedAt(s, y, x, d, n')
      ensures n' == n && !Attacker(s, p, RaySquare(y, x, d, n'), d, n')
    {
    }
  }

  /** With no enemy piece on the lines `x - 2` to `x + 2`, no pawn and no
      knight attacks `(y, x)`. */
  lemma NoLeapCheck(s: Position, p: Player, y: int, x: int)
    requires |s| == 64 && InRange(y, x)
    requires forall j :: 0 <= j < 64 && x - 2 <= j % 8 <= x + 2 && s[j].Some? ==> s[j].value.player == p
    ensures !PawnCheck(s, p, y, x) && !KnightCheck(s, p, y, x)
  {
    PawnCheckIff(s, p, y, x);
    KnightCheckIff(s, p, y, x);
    forall d | PawnAttackStep(p, d) || KnightLeap(d)
      ensures !OccupiedAt(s, y, x, d, Opponent(p), Pawn) && !OccupiedAt(s, y, x, d, Opponent(p), Knight)
    {
      if InRange(y + d.y, x + d.x) {
        IndexBounds(y + d.y, x + d.x);
      }
    }
  }

  /** The rays from e8 after 1. f3 e5. */
  lemma E5Rays(s: Position, k: int)
    requires StartExcept(s, AFTER_E5) && 0 <= k < 8
    ensures !RayAttack(s, Black, 4, 7, ROYALTY_SPACES[k], 0)
  {
    assert ROYALTY_SPACES == [UP_LEFT, UP_RIGHT, DOWN_LEFT, DOWN_RIGHT, UP, RIGHT, DOWN, LEFT];
    var d := ROYALTY_SPACES[k];
    if d == DOWN {
      StartExceptAt(s, AFTER_E5, 4, 6);
      StartExceptAt(s, AFTER_E5, 4, 5);
      StartExceptAt(s, AFTER_E5, 4, 4);
      RayShielded(s, Black, 4, 7, d, 3);
    } else {
      if OnRay(4, 7, d, 1) {
        StartExceptAt(s, AFTER_E5, Along(4, d.y, 1), Along(7, d.x, 1));
      }
      RayShielded(s, Black, 4, 7, d, 1);
    }
  }

  /** After 1. f3 e5 Black is not in check: the e-file is closed by the pawn
      on e5 and every other ray from e8 by a Black piece or the edge. */
  lemma E5LeavesBlackSafe(s: Position)
    requires StartExcept(s, AFTER_E5)
    ensures !Checked(s, Black)
  {
    forall j | 0 <= j < Index(4, 7)
      ensures !IsOccupiedBy(s, j, Black, King)
    {
    }
    StartExceptAt(s, AFTER_E5, 4, 7);
    assert IsOccupiedBy(s, Index(4, 7), Black, King);
    NoLeapCheck(s, Black, 4, 7);
    forall k | 0 <= k < 8
      ensures !RayAttack(s, Black, 4, 7, ROYALTY_SPACES[k], 0)
    {
      E5Rays(s, k);
    }
  }

  /** The rays from e1 after 1. f3 e5 2. g4. */
  lemma G4Rays(s: Position, k: int)
    requires StartExcept(s, AFTER_G4) && 0 <= k < 8
    ensures !RayAttack(s, White, 4, 0, ROYALTY_SPACES[k], 0)
  {
    assert ROYALTY_SPACES == [UP_LEFT, UP_RIGHT, DOWN_LEFT, DOWN_RIGHT, UP, RIGHT, DOWN, LEFT];
    var d := ROYALTY_SPACES[k];
    if d == UP_RIGHT {
      StartExceptAt(s, AFTER_G4, 5, 1);
      StartExceptAt(s, AFTER_G4, 6, 2);
      StartExceptAt(s, AFTER_G4, 7, 3);
      RayShielded(s, White, 4, 0, d, 4);
    } else {
      if OnRay(4, 0, d, 1) {
        StartExceptAt(s, AFTER_G4, Along(4, d.y, 1), Along(0, d.x, 1));
      }
      RayShielded(s, White, 4, 0, d, 1);
    }
  }

  /** After 1. f3 e5 2. g4 White is not in check: the diagonal e1-h4 is
      open but empty, and every other ray from e1 ends on a White piece or
      the edge. */
  lemma G4LeavesWhiteSafe(s: Position)
    requires StartExcept(s, AFTER_G4)
    ensures !Checked(s, White)
  {
    forall j | 0 <= j < Index(4, 0)
      ensures !IsOccupiedBy(s, j, White, King)
    {
    }
    StartExceptAt(s, AFTER_G4, 4, 0);
    assert IsOccupiedBy(s, Index(4, 0), White, King);
    NoLeapCheck(s, White, 4, 0);
    forall k | 0 <= k < 8
      ensures !RayAttack(s, White, 4, 0, ROYALTY_SPACES[k], 0)
    {
      G4Rays(s, k);
    }
  }

  /** The rays from e8 after the fool's mate. */
  lemma FoolsBlackRays(s: Position, k: int)
    requires FoolsLayout(s) && 0 <= k < 8
    ensures !RayAttack(s, Black, 4, 7, ROYALTY_SPACES[k], 0)
  {
    assert ROYALTY_SPACES == [UP_LEFT, UP_RIGHT, DOWN_LEFT, DOWN_RIGHT, UP, RIGHT, DOWN, LEFT];
    var d := ROYALTY_SPACES[k];
    if d == DOWN {
      FoolsSquare(s, 4, 6);
      FoolsSquare(s, 4, 5);
      FoolsSquare(s, 4, 4);
      RayShielded(s, Black, 4, 7, d, 3);
    } else if d == LEFT {
      FoolsSquare(s, 3, 7);
      FoolsSquare(s, 2, 7);
      RayShielded(s, Black, 4, 7, d, 2);
    } else {
      if OnRay(4, 7, d, 1) {
        FoolsSquare(s, Along(4, d.y, 1), Along(7, d.x, 1));
      }
      RayShielded(s, Black, 4, 7, d, 1);
    }
  }

  /** After the fool's mate Black is not in check: the queen has left d8,
      so the first line is closed by the bishop on c8 instead. */
  lemma FoolsLeavesBlackSafe(s: Position)
    requires FoolsLayout(s)
    ensures !Checked(s, Black)
  {
    forall j | 0 <= j < Index(4, 7)
      ensures !IsOccupiedBy(s, j, Black, King)
    {
    }
    FoolsSquare(s, 4, 7);
    assert IsOccupiedBy(s, Index(4, 7), Black, King);
    NoLeapCheck(s, Black, 4, 7);
    forall k | 0 <= k < 8
      ensures !RayAttack(s, Black, 4, 7, ROYALTY_SPACES[k], 0)
    {
      FoolsBlackRays(s, k);
    }
  }

  /** The positions between the moves, as changes to the start position. */
  lemma FoolsPlayed()
    ensures StartExcept(FoolsAfterE5(), AFTER_E5)
    ensures StartExcept(FoolsAfterG4(), AFTER_G4)
  {
    var s0 := StartPosition();
    var c0: map<int, Option<Piece>> := map[];
    assert StartExcept(s0, c0);
    StartAt(5, 1);
    StartExceptMove(s0, c0, Index(5, 1), Index(5, 2));
    var s1 := FoolsAfterF3();
    var c1 := c0[Index(5, 2) := Some(Piece(White, Pawn, 1, map[]))][Index(5, 1) := None];
    StartExceptAt(s1, c1, 4, 6);
    StartExceptMove(s1, c1, Index(4, 6), Index(4, 4));
    var c2 := c1[Index(4, 4) := Some(Piece(Black, Pawn, 1, map[]))][Index(4, 6) := None];
    assert c2 == AFTER_E5;
    StartExceptAt(FoolsAfterE5(), AFTER_E5, 6, 1);
    StartExceptMove(FoolsAfterE5(), AFTER_E5, Index(6, 1), Index(6, 3));
    assert AFTER_E5[Index(6, 3) := Some(Piece(White, Pawn, 1, map[]))][Index(6, 1) := None] == AFTER_G4;
  }

  /** Move generation records `from -> to` with move type `mt`. */
  predicate Records(s: Position, from: int, to: int, mt: MoveType)
  {
    && |s| == 64 && 0 <= from < 64 && s[from].Some?
    && to in LegalMoves(s, from) && LegalMoves(s, from)[to] == mt
  }

  /** Every move of the fool's mate (1. f3 e5 2. g4 Qh4) is one that move
      generation records as legal in the position it is played from, with
      the move type of that move. */
  lemma FoolsMovesLegal()
    ensures Records(StartPosition(), Index(5, 1), Index(5, 2), Default)
    ensures Records(FoolsAfterF3(), Index(4, 6), Index(4, 4), MoveTwoSpaces)
    ensures Records(FoolsAfterE5(), Index(6, 1), Index(6, 3), MoveTwoSpaces)
    ensures Records(FoolsAfterG4(), Index(3, 7), Index(7, 3), Default)
  {
    FoolsF3Legal();
    FoolsE5Legal();
    FoolsG4Legal();
    FoolsQh4Legal();
  }

  /** 1. f3: one of White's twenty opening moves. */
  lemma FoolsF3Legal()
    ensures Records(StartPosition(), Index(5, 1), Index(5, 2), Default)
  {
    StartAt(5, 1);
    StartMoves(Index(5, 1));
    assert OpeningMoves(Index(5, 1))[Index(5, 2)] == Default;
  }

  /** 1... e5: the e-pawn's first move, two squares ahead onto empty squares,
      leaving Black out of check. */
  lemma FoolsE5Legal()
    ensures Records(FoolsAfterF3(), Index(4, 6), Index(4, 4), MoveTwoSpaces)
  {
    var s := FoolsAfterF3();
    var i, t := Index(4, 6), Index(4, 4);
    StartAt(5, 1);
    StartAt(4, 6);
    StartAt(4, 5);
    StartAt(4, 4);
    assert Rule(s, i, t, MoveTwoSpaces);
    FoolsPlayed();
    assert AfterMove(s, i, t) == FoolsAfterE5();
    E5LeavesBlackSafe(FoolsAfterE5());
    LegalMovesIff(s, i, t);
  }

  /** 2. g4: the g-pawn's first move, two squares ahead onto empty squares,
      leaving White out of check. */
  lemma FoolsG4Legal()
    ensures Records(FoolsAfterE5(), Index(6, 1), Index(6, 3), MoveTwoSpaces)
  {
    var s := FoolsAfterE5();
    var i, t := Index(6, 1), Index(6, 3);
    FoolsPlayed();
    StartExceptAt(s, AFTER_E5, 6, 1);
    StartExceptAt(s, AFTER_E5, 6, 2);
    StartExceptAt(s, AFTER_E5, 6, 3);
    assert Rule(s, i, t, MoveTwoSpaces);
    assert AfterMove(s, i, t) == FoolsAfterG4();
    G4LeavesWhiteSafe(FoolsAfterG4());
    LegalMovesIff(s, i, t);
  }

  /** After 1. f3 e5 2. g4 the queen on d8 may slide to h4: e7, f6 and g5
      are empty, and so is h4. */
  lemma Qh4Rule(s: Position)
    requires StartExcept(s, AFTER_G4)
    ensures s[Index(3, 7)].Some? && Rule(s, Index(3, 7), Index(7, 3), Default)
  {
    StartExceptAt(s, AFTER_G4, 3, 7);
    StartExceptAt(s, AFTER_G4, 4, 6);
    StartExceptAt(s, AFTER_G4, 5, 5);
    StartExceptAt(s, AFTER_G4, 6, 4);
    StartExceptAt(s, AFTER_G4, 7, 3);
    assert DOWN_RIGHT in ROYALTY_SPACES;
    assert RayReach(s, Black, 3, 7, DOWN_RIGHT, 4) && Index(7, 3) == RaySquare(3, 7, DOWN_RIGHT, 4);
  }

  /** 2... Qh4: the queen slides along the emptied diagonal d8-h4, leaving
      Black out of check. */
  lemma FoolsQh4Legal()
    ensures Records(FoolsAfterG4(), Index(3, 7), Index(7, 3), Default)
  {
    var s := FoolsAfterG4();
    var i, t := Index(3, 7), Index(7, 3);
    FoolsPlayed();
    Qh4Rule(s);
    assert s[i].value.player == Black by {
      StartExceptAt(s, AFTER_G4, 3, 7);
    }
    FoolsMateLayout();
    FoolsLeavesBlackSafe(FoolsMate());
    assert Safe(s, Black, i, t);
    LegalMovesIff(s, i, t);
  }
}
