/**
 * The chess board: 64 squares indexed by `8 * col + line`, each empty or
 * holding a piece record, and the stack of moves made so far. Moves are
 * applied and cancelled in place; check is detected by walking a cursor
 * outward from the king; the legal moves of one side are computed by
 * walking a cursor from every piece of that side.
 */
module Boards {
  import opened Squares
  import opened Pieces
  import opened Positions
  import opened Check
  import opened Generation

  class Board {
    var squares: Position
    var moves: seq<MoveRecord>

    /** A board has 64 squares and a history of records on the board. */
    ghost predicate Valid()
      reads this
    {
      |squares| == 64 && forall r :: r in moves ==> ValidRecord(r)
    }

    /** A new board holds the start position and an empty history. */
    constructor ()
      ensures Valid()
      ensures squares == StartPosition() && moves == []
    {
      squares := [];
      new;
      Setup();
      moves := [];
    }

    /** Appends the start position, column by column and line by line. */
    method Setup()
      modifies this
      ensures squares == old(squares) + StartPosition()
      ensures moves == old(moves)
    {
      for col := MIN to MAX + 1
        invariant squares == old(squares) + StartPosition()[..8 * col]
        invariant moves == old(moves)
      {
        for line := MIN to MAX + 1
          invariant squares == old(squares) + StartPosition()[..8 * col + line]
          invariant moves == old(moves)
        {
          assert StartPosition()[..8 * col + line + 1] == StartPosition()[..8 * col + line] + [StartOccupant(col, line)];
          squares := squares + [StartOccupant(col, line)];
        }
      }
      assert StartPosition()[..64] == StartPosition();
    }

    /** Scans the squares in index order for the first `(player, name)`. */
    method FindPieceIndex(player: Player, name: Name) returns (r: Option<int>)
      requires Valid()
      ensures r == FirstIndexOf(squares, player, name)
    {
      var index := 0;
      while index < |squares|
        invariant 0 <= index <= |squares|
        invariant FirstIndexOf(squares, player, name) == FirstIndexFrom(squares, player, name, index)
      {
        if !IsEmpty(squares, index) && squares[index].value.name == name && squares[index].value.player == player {
          return Some(index);
        }
        assert !IsOccupiedBy(squares, index, player, name);
        index := index + 1;
      }
      return None;
    }

    /** Records `to` as a legal move of the piece on `from`. */
    method RecordLegalMove(from: int, to: int, moveType: MoveType := Default)
      requires Valid() && 0 <= from < 64 && squares[from].Some?
      modifies this
      ensures squares == WithLegalMove(old(squares), from, to, moveType)
      ensures moves == old(moves) && Valid()
    {
      var piece := squares[from].value;
      squares := squares[from := Some(piece.(legalMoves := piece.legalMoves[to := moveType]))];
    }

    /** Moves the occupant of `from` onto `to`, counting the move, and pushes
        the record that lets the move be cancelled. */
    method Move(from: int, to: int, moveType: MoveType := Default)
      requires Valid() && 0 <= from < 64 && 0 <= to < 64 && squares[from].Some?
      modifies this
      ensures squares == AfterMove(old(squares), from, to)
      ensures moves == old(moves) + [RecordOf(old(squares), from, to, moveType)]
      ensures Valid()
    {
      // The record keeps a reference to the former occupant of `to`; when
      // `from == to` that is the moving piece, whose count is then raised.
      var captured := if from == to then Some(Moved(squares[from].value)) else squares[to];
      var record := MoveRecord(from, to, moveType, captured);
      squares := squares[to := squares[from]];
      squares := squares[to := Some(Moved(squares[to].value))];
      squares := squares[from := None];
      moves := moves + [record];
    }

    /** Pops the last record, if any, and puts the board back as it was
        before that move. The occupant of the record's `to` square must be
        present; an empty history changes nothing. */
    method CancelLastMove()
      requires Valid()
      requires moves != [] ==> ValidRecord(moves[|moves| - 1]) && squares[moves[|moves| - 1].to].Some?
      modifies this
      ensures Valid()
      ensures old(moves) == [] ==> squares == old(squares) && moves == old(moves)
      ensures old(moves) != [] ==>
        && moves == old(moves)[..|old(moves)| - 1]
        && squares == AfterCancel(old(squares), old(moves)[|old(moves)| - 1])
    {
      if moves != [] {
        var lastMove := moves[|moves| - 1];
        assert lastMove in moves;
        moves := moves[..|moves| - 1];
        squares := squares[lastMove.from := squares[lastMove.to]];
        var piece := squares[lastMove.from].value;
        squares := squares[lastMove.from := Some(piece.(moveCount := piece.moveCount - 1))];
        squares := squares[lastMove.to := lastMove.capturedPiece];
      }
    }

    /** Empties the cached legal moves of every piece. */
    method ResetMovesIndexes()
      requires Valid()
      modifies this
      ensures squares == Cleared(old(squares))
      ensures moves == old(moves) && Valid()
    {
      var index := 0;
      while index < |squares|
        invariant |squares| == |old(squares)| && 0 <= index <= |squares|
        invariant forall j :: 0 <= j < index ==> squares[j] == Cleared(old(squares))[j]
        invariant forall j :: index <= j < |squares| ==> squares[j] == old(squares)[j]
        invariant moves == old(moves)
      {
        if squares[index].Some? {
          squares := squares[index := Some(squares[index].value.(legalMoves := map[]))];
        }
        index := index + 1;
      }
    }

    /** Makes the move, tests `player` for check, and cancels the move. */
    method IsCheckedIfMoving(player: Player, from: int, to: int, moveType: MoveType := Default) returns (isChecked: bool)
      requires Valid() && 0 <= from < 64 && 0 <= to < 64 && from != to && squares[from].Some?
      requires HasKing(AfterMove(squares, from, to), player)
      modifies this
      ensures isChecked == Checked(AfterMove(old(squares), from, to), player)
      ensures squares == old(squares) && moves == old(moves)
    {
      Move(from, to, moveType);
      isChecked := IsChecked(player);
      CancelLastMove();
      CancelUndoesMove(old(squares), from, to, moveType);
    }

    /** Looks outward from `player`'s king for an attacker: enemy pawns on
        the king's forward diagonals, enemy knights a leap away, and along
        each of the eight rays the first piece met. */
    method IsChecked(player: Player) returns (isChecked: bool)
      requires Valid() && HasKing(squares, player)
      ensures isChecked == Checked(squares, player)
    {
      var kingIndex := FindPieceIndex(player, King);
      var k := kingIndex.value;
      DecodeIndex(k);
      var square := new Square(k / 8, k % 8);
      SpacesShape();

      var spaces := if player == White then UP_DIAGONAL_SPACES else DOWN_DIAGONAL_SPACES;
      isChecked := LeapIsAttacked(player, square, spaces, Pawn);
      if isChecked {
        return;
      }
      isChecked := LeapIsAttacked(player, square, KNIGHT_SPACES, Knight);
      if isChecked {
        return;
      }
      for j := 0 to |ROYALTY_SPACES|
        invariant square.y == square.y0 && square.x == square.x0
        invariant forall j' :: 0 <= j' < j ==> !RayAttack(squares, player, k / 8, k % 8, ROYALTY_SPACES[j'], 0)
      {
        isChecked := RayIsAttacked(player, square, ROYALTY_SPACES[j]);
        if isChecked {
          return;
        }
        square.GoBackOrigin();
      }
      return false;
    }

    /** Steps `square` from its origin by each of `spaces` in turn, returning
        to the origin after each, and reports whether one of the squares
        reached holds an enemy `name`. */
    method LeapIsAttacked(player: Player, square: Square, spaces: seq<Offset>, name: Name) returns (attacked: bool)
      requires Valid()
      requires square.y == square.y0 && square.x == square.x0 && InRange(square.y0, square.x0)
      modifies square
      ensures attacked <==> exists j :: 0 <= j < |spaces| && OccupiedAt(squares, square.y0, square.x0, spaces[j], Opponent(player), name)
      ensures square.y == square.y0 && square.x == square.x0
    {
      for j := 0 to |spaces|
        invariant square.y == square.y0 && square.x == square.x0
        invariant forall j' :: 0 <= j' < j ==> !OccupiedAt(squares, square.y0, square.x0, spaces[j'], Opponent(player), name)
      {
        var moved := square.MoveOneSpace(spaces[j]);
        if moved && IsOccupiedBy(squares, square.GetIndex(), Opponent(player), name) {
          assert OccupiedAt(squares, square.y0, square.x0, spaces[j], Opponent(player), name);
          square.GoBackOrigin();
          return true;
        }
        square.GoBackOrigin();
      }
      return false;
    }

    /** Walks `square` from its origin along `space` while it stays on the
        board, counting the squares passed; the first occupied square
        decides whether it holds an attacker along that ray. */
    method RayIsAttacked(player: Player, square: Square, space: Offset) returns (attacked: bool)
      requires Valid() && Unit(space)
      requires square.y == square.y0 && square.x == square.x0 && InRange(square.y0, square.x0)
      modifies square
      ensures attacked == RayAttack(squares, player, square.y0, square.x0, space, 0)
    {
      ghost var target := RayAttack(squares, player, square.y0, square.x0, space, 0);
      ghost var py, px := square.y, square.x;
      var spaceNumber := 1;
      var stepped := square.MoveOneSpace(space);
      while stepped
        invariant InRange(py, px)
        invariant stepped <==> InRange(py + space.y, px + space.x)
        invariant stepped ==> square.y == py + space.y && square.x == px + space.x
        invariant target == RayAttack(squares, player, py, px, space, spaceNumber - 1)
        decreases if stepped then EdgeDistance(py, px, space) + 1 else 0
      {
        ghost var ny, nx := square.y, square.x;
        var t := square.GetIndex();
        StepCloser(py, px, space, ny, nx);
        RayStep(squares, player, py, px, space, spaceNumber - 1, ny, nx);
        if !IsEmpty(squares, t) {
          attacked := AttackerOn(player, t, space, spaceNumber);
          return;
        }
        py, px := ny, nx;
        spaceNumber := spaceNumber + 1;
        stepped := square.MoveOneSpace(space);
      }
      return false;
    }

    /** The occupant of `t`, met first at distance `spaceNumber` along
        `space`, gives check: an enemy queen; an enemy king next to the
        square; an enemy rook on a line or file; an enemy bishop on a
        diagonal. */
    method AttackerOn(player: Player, t: int, space: Offset, spaceNumber: int) returns (attacked: bool)
      requires Valid() && 0 <= t < 64 && !IsEmpty(squares, t)
      ensures attacked == Attacker(squares, player, t, space, spaceNumber)
    {
      attacked := false;
      if squares[t].value.player == Opponent(player) {
        if squares[t].value.name == Queen {
          attacked := true;
        } else if spaceNumber == 1 && squares[t].value.name == King {
          attacked := true;
        } else {
          if space.y == 0 || space.x == 0 {
            if squares[t].value.name == Rook {
              attacked := true;
            }
          } else {
            if squares[t].value.name == Bishop {
              attacked := true;
            }
          }
        }
      }
    }

    // -------------------------------------------------------------------
    // Legal-move generation. `s0` is the position the generation started
    // from; the board differs from it only in the cached legal moves.

    /** What every generation step may assume: the board agrees with `s0`
        up to cached moves, `player`'s king is on it, and `index` holds a
        piece of `player`. */
    ghost predicate Generating(player: Player, index: int, s0: Position)
      reads this
    {
      && Valid() && |s0| == 64 && SameExceptLegalMoves(s0, squares) && HasKing(s0, player)
      && 0 <= index < 64 && s0[index].Some? && s0[index].value.player == player && squares[index].Some?
    }

    /** Records `t` with move type `mt` for the piece on `index` when making
        that move does not leave `player` in check. */
    method RecordIfSafe(player: Player, index: int, t: int, mt: MoveType, ghost s0: Position)
      requires Generating(player, index, s0)
      requires 0 <= t < 64 && index != t && Open(s0, t, player)
      modifies this
      ensures Generating(player, index, s0) && moves == old(moves)
      ensures squares == if Safe(s0, player, index, t) then WithLegalMove(old(squares), index, t, mt) else old(squares)
    {
      SameExceptLegalMovesFacts(s0, squares, index);
      SameExceptLegalMovesFacts(s0, squares, t);
      FirstIndexIgnoresLegalMoves(s0, squares, player, King);
      KingSurvivesMove(squares, player, index, t);
      SafeIgnoresLegalMoves(s0, squares, player, index, t);
      var isChecked := IsCheckedIfMoving(player, index, t, mt);
      if !isChecked {
        WithLegalMovesIsSame(s0, squares, index, squares[index].value.legalMoves[t := mt]);
        RecordLegalMove(index, t, mt);
      }
    }

    /** One leap by `d` from the cursor's origin: the square reached is
        recorded when it is on the board, empty (when `quiet`) or
        capturable, and safe. */
    method RecordLeapSquare(player: Player, index: int, square: Square, d: Offset, quiet: bool, ghost s0: Position)
      requires Generating(player, index, s0)
      requires InRange(square.y0, square.x0) && index == Index(square.y0, square.x0) && d != Offset(0, 0)
      modifies this, square
      ensures Generating(player, index, s0) && moves == old(moves)
      ensures var t := Index(square.y0 + d.y, square.x0 + d.x);
        squares == WithLegalMoves(old(squares), index,
          if LeapTo(s0, player, square.y0, square.x0, d, quiet, t) && Safe(s0, player, index, t)
          then old(squares)[index].value.legalMoves[t := Default] else old(squares)[index].value.legalMoves)
    {
      ghost var lm := squares[index].value.legalMoves;
      WithLegalMovesTwice(squares, index, map[], lm);
      square.GoBackOrigin();
      var moved := square.MoveOneSpace(d);
      if moved {
        var t := square.GetIndex();
        SameExceptLegalMovesFacts(s0, squares, t);
        if (quiet && IsEmpty(squares, t)) || IsCapturable(squares, t, player) {
          IndexInjective(square.y0, square.x0, square.y, square.x);
          RecordIfSafe(player, index, t, Default, s0);
        }
      }
    }

    /** One step by each of `spaces` from the cursor's origin, recording the
        squares reached that are empty (when `quiet`) or capturable and safe:
        the knight's and king's moves, and a pawn's diagonal captures. */
    method LeapMoves(player: Player, index: int, square: Square, spaces: seq<Offset>, quiet: bool, ghost s0: Position)
      requires Generating(player, index, s0)
      requires InRange(square.y0, square.x0) && index == Index(square.y0, square.x0) && NonNull(spaces)
      modifies this, square
      ensures Generating(player, index, s0) && moves == old(moves)
      ensures squares == WithLegalMoves(old(squares), index,
        Filter(s0, player, index, LeapCandidates(s0, player, square.y0, square.x0, spaces, quiet), old(squares)[index].value.legalMoves))
    {
      ghost var start := squares;
      ghost var y, x := square.y0, square.x0;
      ghost var lm := squares[index].value.legalMoves;
      ghost var goal := Filter(s0, player, index, LeapCandidates(s0, player, y, x, spaces, quiet), lm);
      WithLegalMovesTwice(start, index, map[], lm);
      for j := 0 to |spaces|
        invariant Generating(player, index, s0) && moves == old(moves)
        invariant squares == WithLegalMoves(start, index, lm)
        invariant goal == Filter(s0, player, index, LeapCandidates(s0, player, y, x, spaces[j..], quiet), lm)
      {
        assert spaces[j..][1..] == spaces[j + 1..];
        FilterLeapStep(s0, player, index, y, x, spaces[j..], quiet, lm);
        RecordLeapSquare(player, index, square, spaces[j], quiet, s0);
        ghost var t := Index(y + spaces[j].y, x + spaces[j].x);
        ghost var lm' := if LeapTo(s0, player, y, x, spaces[j], quiet, t) && Safe(s0, player, index, t) then lm[t := Default] else lm;
        WithLegalMovesTwice(start, index, lm, lm');
        lm := lm';
      }
      assert spaces[|spaces|..] == [];
    }

    /** One pawn advance: steps the cursor by `space` and, when the square
        reached is on the board and empty, records it with move type `mt`
        if that is safe. The cursor starts on the pawn's square or one
        advance ahead of it. */
    method AdvanceOnce(player: Player, index: int, square: Square, space: Offset, mt: MoveType, ghost s0: Position, ghost t: int)
      returns (advanced: bool)
      requires Generating(player, index, s0)
      requires InRange(square.y0, square.x0) && index == Index(square.y0, square.x0)
      requires space == PawnAdvance(player) && InRange(square.y, square.x)
      requires square.y == square.y0 && (square.x == square.x0 || square.x == square.x0 + space.x)
      requires t == Index(square.y + space.y, square.x + space.x)
      modifies this, square
      ensures Generating(player, index, s0) && moves == old(moves)
      ensures advanced <==> InRange(old(square.y) + space.y, old(square.x) + space.x) && IsEmpty(s0, t)
      ensures advanced ==> square.y == old(square.y) + space.y && square.x == old(square.x) + space.x
      ensures squares == if !advanced then old(squares) else WithLegalMoves(old(squares), index,
        if Safe(s0, player, index, t) then old(squares)[index].value.legalMoves[t := mt]
        else old(squares)[index].value.legalMoves)
    {
      WithLegalMovesTwice(squares, index, map[], squares[index].value.legalMoves);
      var moved := square.MoveOneSpace(space);
      advanced := false;
      if moved {
        var t := square.GetIndex();
        SameExceptLegalMovesFacts(s0, squares, t);
        if IsEmpty(squares, t) {
          IndexInjective(square.y0, square.x0, square.y, square.x);
          RecordIfSafe(player, index, t, mt, s0);
          advanced := true;
        }
      }
    }

    /** A pawn's advances: one square ahead onto an empty square, then
        on its first move a second square ahead onto an empty square. */
    method PawnAdvanceMoves(player: Player, index: int, square: Square, ghost s0: Position)
      requires Generating(player, index, s0) && s0[index].value.name == Pawn
      requires InRange(square.y0, square.x0) && index == Index(square.y0, square.x0)
      requires square.y == square.y0 && square.x == square.x0
      modifies this, square
      ensures Generating(player, index, s0) && moves == old(moves)
      ensures squares == WithLegalMoves(old(squares), index,
        Filter(s0, player, index, PawnAdvances(s0, square.y0, square.x0), old(squares)[index].value.legalMoves))
    {
      ghost var start := squares;
      var space := if player == White then UP else DOWN;
      ghost var t1 := Index(square.y0 + space.y, square.x0 + space.x);
      ghost var t2 := Index(square.y0 + 2 * space.y, square.x0 + 2 * space.x);
      FilterPawnAdvances(s0, index, square.y0, square.x0, space, t1, t2, squares[index].value.legalMoves);
      var advanced := AdvanceOnce(player, index, square, space, Default, s0, t1);
      if advanced {
        SameExceptLegalMovesFacts(s0, squares, index);
        ghost var mid := squares;
        if squares[index].value.moveCount == 0 {
          advanced := AdvanceOnce(player, index, square, space, MoveTwoSpaces, s0, t2);
          WithLegalMovesTwice(start, index, mid[index].value.legalMoves, squares[index].value.legalMoves);
        }
      }
    }

    /** A pawn's moves: its advances, then the two forward diagonals onto
        capturable pieces, from the cursor's origin. */
    method PawnMoves(player: Player, index: int, square: Square, ghost s0: Position)
      requires Generating(player, index, s0) && s0[index].value.name == Pawn
      requires InRange(square.y0, square.x0) && index == Index(square.y0, square.x0)
      requires square.y == square.y0 && square.x == square.x0
      modifies this, square
      ensures Generating(player, index, s0) && moves == old(moves)
      ensures squares == WithLegalMoves(old(squares), index,
        Filter(s0, player, index, PawnCandidates(s0, square.y0, square.x0), old(squares)[index].value.legalMoves))
    {
      ghost var start := squares;
      ghost var y, x := square.y0, square.x0;
      ghost var lm0 := squares[index].value.legalMoves;
      PawnAdvanceMoves(player, index, square, s0);
      ghost var lmA := squares[index].value.legalMoves;
      WithLegalMovesTwice(start, index, lm0, lmA);
      var spaces := if player == White then UP_DIAGONAL_SPACES else DOWN_DIAGONAL_SPACES;
      SpacesShape();
      LeapMoves(player, index, square, spaces, false, s0);
      WithLegalMovesTwice(start, index, lmA, squares[index].value.legalMoves);
      FilterConcat(s0, player, index, PawnAdvances(s0, y, x), LeapCandidates(s0, player, y, x, spaces, false), lm0);
    }

    /** The body of a ray walk, with the cursor one step past `(py, px)`:
        an empty square is recorded when safe and the walk goes on; an
        occupied square is recorded when capturable and safe, and the walk
        stops there. */
    method RecordRaySquare(player: Player, index: int, square: Square, space: Offset, ghost s0: Position, ghost py: int, ghost px: int)
      returns (empty: bool)
      requires Generating(player, index, s0)
      requires InRange(square.y0, square.x0) && index == Index(square.y0, square.x0) && Unit(space)
      requires InRange(py, px) && EdgeDistance(py, px, space) <= EdgeDistance(square.y0, square.x0, space)
      requires square.y == py + space.y && square.x == px + space.x && InRange(square.y, square.x)
      modifies this
      ensures Generating(player, index, s0) && moves == old(moves)
      ensures squares == WithLegalMoves(old(squares), index, squares[index].value.legalMoves)
      ensures EdgeDistance(square.y, square.x, space) < EdgeDistance(py, px, space)
      ensures RayFilter(s0, player, index, py, px, space, old(squares)[index].value.legalMoves) ==
        if empty then RayFilter(s0, player, index, square.y, square.x, space, squares[index].value.legalMoves)
        else squares[index].value.legalMoves
    {
      var t := square.GetIndex();
      StepCloser(py, px, space, square.y, square.x);
      IndexInjective(square.y0, square.x0, square.y, square.x);
      FilterRayNext(s0, player, index, py, px, space, square.y, square.x, squares[index].value.legalMoves);
      SameExceptLegalMovesFacts(s0, squares, t);
      SameExceptLegalMovesFacts(s0, squares, index);
      WithLegalMovesTwice(squares, index, map[], squares[index].value.legalMoves);
      if IsEmpty(squares, t) {
        RecordIfSafe(player, index, t, Default, s0);
        empty := true;
      } else {
        if IsCapturable(squares, t, player) {
          RecordIfSafe(player, index, t, Default, s0);
        }
        empty := false;
      }
    }

    /** Walks the cursor from its origin along `space`, recording every
        empty square passed and then the first occupied square when it is
        capturable, each only when safe: one ray of a bishop, rook or queen. */
    method RayMoves(player: Player, index: int, square: Square, space: Offset, ghost s0: Position)
      requires Generating(player, index, s0)
      requires InRange(square.y0, square.x0) && index == Index(square.y0, square.x0) && Unit(space)
      requires square.y == square.y0 && square.x == square.x0
      modifies this, square
      ensures Generating(player, index, s0) && moves == old(moves)
      ensures squares == WithLegalMoves(old(squares), index,
        Filter(s0, player, index, RayCandidates(s0, player, square.y0, square.x0, space), old(squares)[index].value.legalMoves))
    {
      ghost var start := squares;
      ghost var lm := start[index].value.legalMoves;
      ghost var goal := RayFilter(s0, player, index, square.y0, square.x0, space, lm);
      WithLegalMovesTwice(start, index, map[], lm);
      ghost var py, px := square.y, square.x;
      var stepped := square.MoveOneSpace(space);
      while stepped
        invariant Generating(player, index, s0) && moves == old(moves)
        invariant squares == WithLegalMoves(start, index, lm)
        invariant InRange(py, px) && EdgeDistance(py, px, space) <= EdgeDistance(square.y0, square.x0, space)
        invariant stepped <==> InRange(py + space.y, px + space.x)
        invariant stepped ==> square.y == py + space.y && square.x == px + space.x
        invariant goal == RayFilter(s0, player, index, py, px, space, lm)
        decreases if stepped then EdgeDistance(py, px, space) + 1 else 0
      {
        var empty := RecordRaySquare(player, index, square, space, s0, py, px);
        WithLegalMovesTwice(start, index, lm, squares[index].value.legalMoves);
        lm := squares[index].value.legalMoves;
        if !empty {
          return;
        }
        py, px := square.y, square.x;
        stepped := square.MoveOneSpace(space);
      }
      FilterRayEnd(s0, player, index, py, px, space, lm);
    }

    /** Each ray of `spaces` in turn, restarting from the origin. */
    method SlideMoves(player: Player, index: int, square: Square, spaces: seq<Offset>, ghost s0: Position)
      requires Generating(player, index, s0)
      requires InRange(square.y0, square.x0) && index == Index(square.y0, square.x0) && Directions(spaces)
      modifies this, square
      ensures Generating(player, index, s0) && moves == old(moves)
      ensures squares == WithLegalMoves(old(squares), index,
        Filter(s0, player, index, SlideCandidates(s0, player, square.y0, square.x0, spaces), old(squares)[index].value.legalMoves))
    {
      ghost var start := squares;
      ghost var y, x := square.y0, square.x0;
      ghost var lm := squares[index].value.legalMoves;
      ghost var goal := Filter(s0, player, index, SlideCandidates(s0, player, y, x, spaces), lm);
      WithLegalMovesTwice(start, index, map[], lm);
      for j := 0 to |spaces|
        invariant Generating(player, index, s0) && moves == old(moves)
        invariant squares == WithLegalMoves(start, index, lm)
        invariant goal == Filter(s0, player, index, SlideCandidates(s0, player, y, x, spaces[j..]), lm)
      {
        assert spaces[j..][1..] == spaces[j + 1..];
        RaysAvoidOrigin(s0, player, y, x, spaces[j]);
        FilterConcat(s0, player, index, RayCandidates(s0, player, y, x, spaces[j]), SlideCandidates(s0, player, y, x, spaces[j + 1..]), lm);
        square.GoBackOrigin();
        RayMoves(player, index, square, spaces[j], s0);
        ghost var lm' := Filter(s0, player, index, RayCandidates(s0, player, y, x, spaces[j]), lm);
        WithLegalMovesTwice(start, index, lm, lm');
        lm := lm';
      }
      assert spaces[|spaces|..] == [];
    }

    /** The moves of the piece on `index`, by its kind, from a cursor
        created on its square; its cached moves start out empty. */
    method PieceMoves(player: Player, index: int, ghost s0: Position)
      requires Generating(player, index, s0) && squares[index].value.legalMoves == map[]
      modifies this
      ensures Generating(player, index, s0) && moves == old(moves)
      ensures squares == WithLegalMoves(old(squares), index, LegalMoves(s0, index))
    {
      DecodeIndex(index);
      SpacesShape();
      SameExceptLegalMovesFacts(s0, squares, index);
      var square := new Square(index / 8, index % 8);
      var name := squares[index].value.name;
      if name == Pawn {
        PawnMoves(player, index, square, s0);
      } else if name == Knight {
        LeapMoves(player, index, square, KNIGHT_SPACES, true, s0);
      } else if name == King {
        LeapMoves(player, index, square, ROYALTY_SPACES, true, s0);
      } else {
        var spaces := if name == Bishop then BISHOP_SPACES else if name == Rook then ROOK_SPACES else ROYALTY_SPACES;
        SlideMoves(player, index, square, spaces, s0);
      }
    }

    /** Empties every piece's cached moves, then fills in the legal moves of
        each piece of `player`, square by square. Afterwards a piece of
        `player` caches exactly `LegalMoves` of the starting position, every
        other piece caches nothing, and nothing else has changed. */
    method CalculateAllMoves(player: Player)
      requires Valid() && HasKing(squares, player)
      modifies this
      ensures Valid() && moves == old(moves) && SameExceptLegalMoves(old(squares), squares)
      ensures forall i :: 0 <= i < 64 && old(squares)[i].Some? ==>
        squares[i] == Some(old(squares)[i].value.(legalMoves :=
          if old(squares)[i].value.player == player then LegalMoves(old(squares), i) else map[]))
    {
      ghost var s0 := squares;
      ResetMovesIndexes();
      ClearedIsSame(s0);
      for index := 0 to 64
        invariant Valid() && moves == old(moves) && SameExceptLegalMoves(s0, squares)
        invariant forall i :: 0 <= i < index && s0[i].Some? ==>
          squares[i] == Some(s0[i].value.(legalMoves := if s0[i].value.player == player then LegalMoves(s0, i) else map[]))
        invariant forall i :: index <= i < 64 ==> squares[i] == Cleared(s0)[i]
      {
        SameExceptLegalMovesFacts(s0, squares, index);
        if !IsEmpty(squares, index) {
          if squares[index].value.player == player {
            PieceMoves(player, index, s0);
          }
        }
      }
    }
  }
}
