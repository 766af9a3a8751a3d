/**
 * Pure reads of a position (the 64 squares as a sequence) and the pure
 * meaning of the board's mutations: a move, its cancellation, the clearing
 * of the cached legal moves, and the start position.
 */
module Positions {
  import opened Squares
  import opened Pieces

  // ---------------------------------------------------------------------
  // Queries on one square

  predicate IsEmpty(s: Position, index: int)
    requires 0 <= index < |s|
  {
    s[index].None?
  }

  /** An enemy piece that is not a king: kings are never offered as captures. */
  predicate IsCapturable(s: Position, index: int, currentPlayer: Player)
    requires 0 <= index < |s|
  {
    !IsEmpty(s, index) && s[index].value.player != currentPlayer && s[index].value.name != King
  }

  /** The occupant has at least one recorded legal move. */
  predicate IsMovable(s: Position, index: int)
    requires 0 <= index < |s|
  {
    !IsEmpty(s, index) && |s[index].value.legalMoves| != 0
  }

  predicate IsLegalMove(s: Position, from: int, to: int)
    requires 0 <= from < |s| && s[from].Some?
  {
    to in s[from].value.legalMoves
  }

  predicate IsOccupiedBy(s: Position, index: int, player: Player, name: Name)
    requires 0 <= index < |s|
  {
    !IsEmpty(s, index) && s[index].value.name == name && s[index].value.player == player
  }

  /** The recorded move type of `from -> to`, `None` where the source yields `undefined`. */
  function GetMoveType(s: Position, from: int, to: int): Option<MoveType>
    requires 0 <= from < |s| && s[from].Some?
  {
    if to in s[from].value.legalMoves then Some(s[from].value.legalMoves[to]) else None
  }

  /** How the occupancy queries relate: a capturable square holds an enemy
      that is not a king, and is therefore neither empty nor the mover's own. */
  lemma CapturableMeansEnemyNonKing(s: Position, index: int, p: Player)
    requires 0 <= index < |s|
    ensures IsCapturable(s, index, p) <==> exists n :: n != King && IsOccupiedBy(s, index, Opponent(p), n)
    ensures IsCapturable(s, index, p) ==> !IsEmpty(s, index) && !IsOccupiedBy(s, index, Opponent(p), King)
    ensures IsCapturable(s, index, p) ==> forall n :: !IsOccupiedBy(s, index, p, n)
  {
    if IsCapturable(s, index, p) {
      assert IsOccupiedBy(s, index, Opponent(p), s[index].value.name);
    }
  }

  lemma NonEmptyMapHasKey(m: map<int, MoveType>)
    requires |m| != 0
    ensures exists k :: k in m
  {
    // the case of no key at all is refuted by the verifier from |m| != 0
    if forall k :: k !in m {
    }
  }

  /** A piece is movable exactly when some destination is a legal move of
      it, and the move type is defined exactly on the legal destinations. */
  lemma MovableIffSomeLegalMove(s: Position, index: int)
    requires 0 <= index < |s| && s[index].Some?
    ensures IsMovable(s, index) <==> exists to :: IsLegalMove(s, index, to)
    ensures forall to :: GetMoveType(s, index, to).Some? <==> IsLegalMove(s, index, to)
  {
    var m := s[index].value.legalMoves;
    if |m| != 0 {
      NonEmptyMapHasKey(m);
      var dest :| dest in m;
      assert IsLegalMove(s, index, dest);
    } else {
      assert m == map[];
    }
  }

  // ---------------------------------------------------------------------
  // Finding a piece

  /** The first index at or after `start` holding `(player, name)`. */
  function FirstIndexFrom(s: Position, player: Player, name: Name, start: int): (r: Option<int>)
    requires 0 <= start <= |s|
    decreases |s| - start
    ensures r.Some? ==> start <= r.value < |s| && IsOccupiedBy(s, r.value, player, name)
    ensures r.Some? ==> forall j :: start <= j < r.value ==> !IsOccupiedBy(s, j, player, name)
    ensures r.None? <==> forall j :: start <= j < |s| ==> !IsOccupiedBy(s, j, player, name)
  {
    if start == |s| then None
    else if IsOccupiedBy(s, start, player, name) then Some(start)
    else FirstIndexFrom(s, player, name, start + 1)
  }

  /** The result of the linear scan for `(player, name)`. */
  function FirstIndexOf(s: Position, player: Player, name: Name): (r: Option<int>)
    ensures r.Some? ==> 0 <= r.value < |s| && IsOccupiedBy(s, r.value, player, name)
    ensures r.Some? ==> forall j :: 0 <= j < r.value ==> !IsOccupiedBy(s, j, player, name)
    ensures r.None? <==> forall j :: 0 <= j < |s| ==> !IsOccupiedBy(s, j, player, name)
  {
    FirstIndexFrom(s, player, name, 0)
  }

  predicate HasKing(s: Position, player: Player)
  {
    FirstIndexOf(s, player, King).Some?
  }

  // ---------------------------------------------------------------------
  // The cached legal moves

  /** The position with every piece's `legalMoves` emptied. */
  function Cleared(s: Position): (r: Position)
    ensures |r| == |s|
    ensures forall i :: 0 <= i < |s| ==> (r[i].None? <==> s[i].None?)
    ensures forall i :: 0 <= i < |s| && s[i].Some? ==> r[i] == Some(s[i].value.(legalMoves := map[]))
  {
    seq(|s|, i requires 0 <= i < |s| => if s[i].None? then None else Some(s[i].value.(legalMoves := map[])))
  }

  /** Two positions agree on every occupant up to its cached legal moves. */
  predicate SameExceptLegalMoves(s1: Position, s2: Position)
  {
    |s1| == |s2| &&
    forall i :: 0 <= i < |s1| ==>
      (s1[i].None? <==> s2[i].None?) &&
      (s1[i].Some? ==> s1[i].value.(legalMoves := map[]) == s2[i].value.(legalMoves := map[]))
  }

  lemma SameExceptLegalMovesFacts(s1: Position, s2: Position, i: int)
    requires SameExceptLegalMoves(s1, s2) && 0 <= i < |s1|
    ensures IsEmpty(s1, i) == IsEmpty(s2, i)
    ensures s1[i].Some? ==> s1[i].value.player == s2[i].value.player
    ensures s1[i].Some? ==> s1[i].value.name == s2[i].value.name
    ensures s1[i].Some? ==> s1[i].value.moveCount == s2[i].value.moveCount
  {
    if s1[i].Some? {
      assert s1[i].value.(legalMoves := map[]).player == s2[i].value.(legalMoves := map[]).player;
      assert s1[i].value.(legalMoves := map[]).name == s2[i].value.(legalMoves := map[]).name;
      assert s1[i].value.(legalMoves := map[]).moveCount == s2[i].value.(legalMoves := map[]).moveCount;
    }
  }

  /** Clearing changes nothing but the cached legal moves. */
  lemma ClearedIsSame(s: Position)
    ensures SameExceptLegalMoves(Cleared(s), s) && SameExceptLegalMoves(s, Cleared(s))
  {
  }

  /** The scan for a piece does not look at the cached legal moves. */
  lemma FirstIndexIgnoresLegalMoves(s1: Position, s2: Position, player: Player, name: Name)
    requires SameExceptLegalMoves(s1, s2)
    ensures FirstIndexOf(s1, player, name) == FirstIndexOf(s2, player, name)
  {
    forall i | 0 <= i < |s1|
      ensures IsOccupiedBy(s1, i, player, name) == IsOccupiedBy(s2, i, player, name)
    {
      SameExceptLegalMovesFacts(s1, s2, i);
    }
  }

  /** The position with the piece on `i` given the cached moves `lm`. */
  function WithLegalMoves(s: Position, i: int, lm: map<int, MoveType>): (r: Position)
    requires 0 <= i < |s| && s[i].Some?
    ensures |r| == |s| && r[i].Some? && r[i].value.legalMoves == lm
    ensures r[i].value.(legalMoves := s[i].value.legalMoves) == s[i].value
    ensures forall j :: 0 <= j < |s| && j != i ==> r[j] == s[j]
  {
    s[i := Some(s[i].value.(legalMoves := lm))]
  }

  /** The position after recording `to` as a legal move of the piece on `from`. */
  function WithLegalMove(s: Position, from: int, to: int, moveType: MoveType): Position
    requires 0 <= from < |s| && s[from].Some?
  {
    WithLegalMoves(s, from, s[from].value.legalMoves[to := moveType])
  }

  /** Only the last of two updates of the same piece's cached moves counts,
      and giving a piece its own cached moves changes nothing. */
  lemma WithLegalMovesTwice(s: Position, i: int, lm1: map<int, MoveType>, lm2: map<int, MoveType>)
    requires 0 <= i < |s| && s[i].Some?
    ensures WithLegalMoves(WithLegalMoves(s, i, lm1), i, lm2) == WithLegalMoves(s, i, lm2)
    ensures WithLegalMoves(s, i, s[i].value.legalMoves) == s
  {
  }

  /** Changing a piece's cached moves keeps the position the same otherwise. */
  lemma WithLegalMovesIsSame(s0: Position, s: Position, i: int, lm: map<int, MoveType>)
    requires SameExceptLegalMoves(s0, s) && 0 <= i < |s| && s[i].Some?
    ensures SameExceptLegalMoves(s0, WithLegalMoves(s, i, lm))
  {
    var r := WithLegalMoves(s, i, lm);
    assert r[i].value.(legalMoves := map[]) == s[i].value.(legalMoves := map[]);
  }

  /** A recorded move becomes legal for its piece with the recorded move
      type, the piece becomes movable, and the other recorded moves stay. */
  lemma RecordedMoveIsLegal(s: Position, from: int, to: int, moveType: MoveType)
    requires 0 <= from < |s| && s[from].Some?
    ensures var r := WithLegalMove(s, from, to, moveType);
      && IsLegalMove(r, from, to) && GetMoveType(r, from, to) == Some(moveType) && IsMovable(r, from)
      && (forall t :: t != to ==> GetMoveType(r, from, t) == GetMoveType(s, from, t))
      && SameExceptLegalMoves(s, r)
  {
    var r := WithLegalMove(s, from, to, moveType);
    var m := r[from].value.legalMoves;
    assert to in m;
    assert r[from].value.(legalMoves := map[]) == s[from].value.(legalMoves := map[]);
  }

  // ---------------------------------------------------------------------
  // Applying and cancelling a move

  predicate ValidRecord(r: MoveRecord)
  {
    0 <= r.from < 64 && 0 <= r.to < 64
  }

  /** A piece after one more move. */
  function Moved(piece: Piece): Piece
  {
    piece.(moveCount := piece.moveCount + 1)
  }

  /** The position after moving the occupant of `from` onto `to`. */
  function AfterMove(s: Position, from: int, to: int): (r: Position)
    requires |s| == 64 && 0 <= from < 64 && 0 <= to < 64 && s[from].Some?
    ensures |r| == 64
    ensures r[from] == None
    ensures from != to ==> r[to] == Some(Moved(s[from].value))
    ensures forall i :: 0 <= i < 64 && i != from && i != to ==> r[i] == s[i]
  {
    s[to := Some(Moved(s[from].value))][from := None]
  }

  /** What the history record keeps as the captured piece. The record holds a
      reference to the former occupant of `to`; when `from == to` that is the
      moving piece itself, already counted one move more. */
  function CapturedBy(s: Position, from: int, to: int): Option<Piece>
    requires |s| == 64 && 0 <= from < 64 && 0 <= to < 64 && s[from].Some?
  {
    if from == to then Some(Moved(s[from].value)) else s[to]
  }

  function RecordOf(s: Position, from: int, to: int, moveType: MoveType): (r: MoveRecord)
    requires |s| == 64 && 0 <= from < 64 && 0 <= to < 64 && s[from].Some?
    ensures ValidRecord(r)
  {
    MoveRecord(from, to, moveType, CapturedBy(s, from, to))
  }

  /** The position after undoing `r`: the occupant of `r.to` goes back to
      `r.from` one move fewer, and the captured piece returns to `r.to`. */
  function AfterCancel(s: Position, r: MoveRecord): (t: Position)
    requires |s| == 64 && ValidRecord(r) && s[r.to].Some?
    ensures |t| == 64
    ensures t[r.to] == r.capturedPiece
    ensures r.from != r.to ==> t[r.from] == Some(s[r.to].value.(moveCount := s[r.to].value.moveCount - 1))
    ensures forall i :: 0 <= i < 64 && i != r.from && i != r.to ==> t[i] == s[i]
  {
    s[r.from := Some(s[r.to].value.(moveCount := s[r.to].value.moveCount - 1))][r.to := r.capturedPiece]
  }

  /** Cancelling a move restores every square, occupant and move count. */
  lemma CancelUndoesMove(s: Position, from: int, to: int, moveType: MoveType)
    requires |s| == 64 && 0 <= from < 64 && 0 <= to < 64 && s[from].Some?
    requires from != to
    ensures AfterMove(s, from, to)[to].Some?
    ensures AfterCancel(AfterMove(s, from, to), RecordOf(s, from, to, moveType)) == s
  {
    var t := AfterCancel(AfterMove(s, from, to), RecordOf(s, from, to, moveType));
    assert forall i :: 0 <= i < 64 ==> t[i] == s[i];
  }

  /** Moving a piece onto its own square empties that square, so the move
      cannot be cancelled afterwards (the source fails on the empty square). */
  lemma SelfMoveEmptiesSquare(s: Position, from: int)
    requires |s| == 64 && 0 <= from < 64 && s[from].Some?
    ensures AfterMove(s, from, from)[from].None?
    ensures forall i :: 0 <= i < 64 && i != from ==> AfterMove(s, from, from)[i] == s[i]
  {
  }

  /** Moving commutes with forgetting the cached legal moves. */
  lemma MoveKeepsSameExceptLegalMoves(s1: Position, s2: Position, from: int, to: int)
    requires |s1| == 64 && 0 <= from < 64 && 0 <= to < 64 && s1[from].Some?
    requires SameExceptLegalMoves(s1, s2)
    ensures s2[from].Some?
    ensures SameExceptLegalMoves(AfterMove(s1, from, to), AfterMove(s2, from, to))
  {
    SameExceptLegalMovesFacts(s1, s2, from);
    var a1, a2 := AfterMove(s1, from, to), AfterMove(s2, from, to);
    forall i | 0 <= i < 64
      ensures (a1[i].None? <==> a2[i].None?)
      ensures a1[i].Some? ==> a1[i].value.(legalMoves := map[]) == a2[i].value.(legalMoves := map[])
    {
      if i != from && i != to {
        SameExceptLegalMovesFacts(s1, s2, i);
      }
    }
  }

  /** A move of one of `p`'s pieces onto an empty or capturable square
      leaves `p` with a king. */
  lemma KingSurvivesMove(s: Position, p: Player, from: int, to: int)
    requires |s| == 64 && 0 <= from < 64 && 0 <= to < 64 && from != to
    requires s[from].Some? && s[from].value.player == p
    requires IsEmpty(s, to) || IsCapturable(s, to, p)
    requires HasKing(s, p)
    ensures HasKing(AfterMove(s, from, to), p)
  {
    var k := FirstIndexOf(s, p, King).value;
    var a := AfterMove(s, from, to);
    if k == from {
      assert IsOccupiedBy(a, to, p, King);
    } else {
      assert k != to;
      assert IsOccupiedBy(a, k, p, King);
    }
  }

  // ---------------------------------------------------------------------
  // The start position

  /** The occupant the set-up places on column `col`, line `line`. */
  function StartOccupant(col: int, line: int): Option<Piece>
    requires 0 <= col < 8
  {
    if line < MIN + 2 || line > MAX - 2 then
      Some(Piece(if line < MIN + 2 then White else Black,
                 if line == MIN || line == MAX then NAMES[col] else Pawn,
                 0, map[]))
    else
      None
  }

  function StartPosition(): (s: Position)
    ensures |s| == 64
  {
    seq(64, i requires 0 <= i < 64 => StartOccupant(i / 8, i % 8))
  }

  /** Lines 0-1 hold White, lines 6-7 Black, the back lines follow NAMES,
      lines 1 and 6 are pawns, lines 2-5 are empty, and every piece starts
      unmoved with no legal moves recorded. */
  lemma StartPositionLayout(col: int, line: int)
    requires InRange(col, line)
    ensures var o := StartPosition()[Index(col, line)];
      && (2 <= line <= 5 <==> o.None?)
      && (line <= 1 ==> o.Some? && o.value.player == White)
      && (line >= 6 ==> o.Some? && o.value.player == Black)
      && ((line == 0 || line == 7) ==> o.Some? && o.value.name == NAMES[col])
      && ((line == 1 || line == 6) ==> o.Some? && o.value.name == Pawn)
      && (o.Some? ==> o.value.moveCount == 0 && o.value.legalMoves == map[])
  {
    IndexBounds(col, line);
  }

  /** Each side starts with its king on column 4 of its back line, and the
      scan for it finds exactly that square. */
  lemma StartKings()
    ensures FirstIndexOf(StartPosition(), White, King) == Some(Index(4, 0))
    ensures FirstIndexOf(StartPosition(), Black, King) == Some(Index(4, 7))
  {
    var s := StartPosition();
    forall j | 0 <= j < 64 && j != Index(4, 0)
      ensures !IsOccupiedBy(s, j, White, King)
    {
      assert s[j] == StartOccupant(j / 8, j % 8);
    }
    forall j | 0 <= j < 64 && j != Index(4, 7)
      ensures !IsOccupiedBy(s, j, Black, King)
    {
      assert s[j] == StartOccupant(j / 8, j % 8);
    }
    assert IsOccupiedBy(s, Index(4, 0), White, King);
    assert IsOccupiedBy(s, Index(4, 7), Black, King);
  }
}
