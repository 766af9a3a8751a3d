/**
 * Check detection as a pure specification: a side is in check when, seen
 * outward from its king, an enemy pawn sits on one of the side's forward
 * diagonals, an enemy knight sits a knight's leap away, or the first
 * occupied square along one of the eight rays holds an enemy piece that
 * attacks along that ray.
 */
module Check {
  import opened Squares
  import opened Pieces
  import opened Positions

  /** The square one `d` away from `(y, x)` is on the board and holds `(player, name)`. */
  predicate OccupiedAt(s: Position, y: int, x: int, d: Offset, player: Player, name: Name)
    requires |s| == 64
  {
    InRange(y + d.y, x + d.x) && IsOccupiedBy(s, Index(y + d.y, x + d.x), player, name)
  }

  /** An enemy pawn on one of `p`'s forward diagonals from `(y, x)`. */
  predicate PawnCheck(s: Position, p: Player, y: int, x: int)
    requires |s| == 64
  {
    exists k :: 0 <= k < 2 && OccupiedAt(s, y, x, PawnDiagonals(p)[k], Opponent(p), Pawn)
  }

  /** An enemy knight a knight's leap away from `(y, x)`. */
  predicate KnightCheck(s: Position, p: Player, y: int, x: int)
    requires |s| == 64
  {
    exists k :: 0 <= k < 8 && OccupiedAt(s, y, x, KNIGHT_SPACES[k], Opponent(p), Knight)
  }

  /** Whether an enemy `name`, met first at distance `dist` along `d`, gives
      check: a queen on any ray, a king next to the square, a rook on an
      orthogonal ray, a bishop on a diagonal one. */
  predicate Delivers(name: Name, d: Offset, dist: int)
  {
    || name == Queen
    || (dist == 1 && name == King)
    || (Orthogonal(d) && name == Rook)
    || (!Orthogonal(d) && name == Bishop)
  }

  /** The square at `index` holds an enemy of `p` that gives check along `d` from distance `dist`. */
  predicate Attacker(s: Position, p: Player, index: int, d: Offset, dist: int)
    requires 0 <= index < |s|
  {
    s[index].Some? && s[index].value.player == Opponent(p) && Delivers(s[index].value.name, d, dist)
  }

  /** Walking from `(y, x)` along `d`, `dist` squares already passed: the
      first occupied square decides, the edge of the board means no check. */
  predicate RayAttack(s: Position, p: Player, y: int, x: int, d: Offset, dist: int)
    requires |s| == 64 && InRange(y, x) && d != Offset(0, 0)
    decreases EdgeDistance(y, x, d)
  {
    && InRange(y + d.y, x + d.x)
    && var t := Index(y + d.y, x + d.x);
       if IsEmpty(s, t) then RayAttack(s, p, y + d.y, x + d.x, d, dist + 1)
       else Attacker(s, p, t, d, dist + 1)
  }

  /** One step of the walk: from `(y, x)` the next square along `d` decides
      if it is occupied, and otherwise the walk goes on from it. */
  lemma RayStep(s: Position, p: Player, y: int, x: int, d: Offset, dist: int, ny: int, nx: int)
    requires |s| == 64 && InRange(y, x) && Unit(d)
    requires ny == y + d.y && nx == x + d.x && InRange(ny, nx)
    ensures RayAttack(s, p, y, x, d, dist) ==
      if IsEmpty(s, Index(ny, nx)) then RayAttack(s, p, ny, nx, d, dist + 1)
      else Attacker(s, p, Index(ny, nx), d, dist + 1)
  {
  }

  /** Some ray from `(y, x)` ends on an attacker. */
  predicate RayCheck(s: Position, p: Player, y: int, x: int)
    requires |s| == 64 && InRange(y, x)
  {
    SpacesShape();
    exists k :: 0 <= k < 8 && RayAttack(s, p, y, x, ROYALTY_SPACES[k], 0)
  }

  /** Whether `p`'s king (the first one the scan finds) is attacked. A side
      without a king is reported as not in check here; the engine itself
      fails in that case, and the method that models it requires a king. */
  predicate Checked(s: Position, p: Player)
    requires |s| == 64
  {
    match FirstIndexOf(s, p, King)
    case None => false
    case Some(k) =>
      PawnCheck(s, p, k / 8, k % 8) || KnightCheck(s, p, k / 8, k % 8) || RayCheck(s, p, k / 8, k % 8)
  }

  // ---------------------------------------------------------------------
  // The rays, stated without recursion

  /** The index of the square `m` steps along the unit direction `d`. */
  function RaySquare(y: int, x: int, d: Offset, m: int): int
  {
    Index(Along(y, d.y, m), Along(x, d.x, m))
  }

  predicate OnRay(y: int, x: int, d: Offset, m: int)
  {
    InRange(Along(y, d.y, m), Along(x, d.x, m))
  }

  /** The first occupied square along `d` from `(y, x)` is `n` steps away:
      it is on the board and occupied, and every square before it is on the
      board and empty. */
  predicate FirstOccupiedAt(s: Position, y: int, x: int, d: Offset, n: int)
    requires |s| == 64
  {
    && n >= 1
    && OnRay(y, x, d, n)
    && !IsEmpty(s, RaySquare(y, x, d, n))
    && forall m :: 1 <= m < n ==> OnRay(y, x, d, m) && IsEmpty(s, RaySquare(y, x, d, m))
  }

  /** Stepping once along `d` shifts the ray by one square. */
  lemma AlongShift(y: int, x: int, d: Offset, m: int)
    requires Unit(d)
    ensures Along(y + d.y, d.y, m - 1) == Along(y, d.y, m)
    ensures Along(x + d.x, d.x, m - 1) == Along(x, d.x, m)
    ensures OnRay(y + d.y, x + d.x, d, m - 1) == OnRay(y, x, d, m)
    ensures RaySquare(y + d.y, x + d.x, d, m - 1) == RaySquare(y, x, d, m)
  {
  }

  /** Past an empty first square, the first occupied square of the ray is
      that of the ray starting one step further, one step closer. */
  lemma FirstOccupiedShift(s: Position, y: int, x: int, d: Offset, n: int)
    requires |s| == 64 && Unit(d)
    requires InRange(y + d.y, x + d.x) && IsEmpty(s, Index(y + d.y, x + d.x))
    ensures FirstOccupiedAt(s, y, x, d, n) <==> n >= 2 && FirstOccupiedAt(s, y + d.y, x + d.x, d, n - 1)
    ensures RaySquare(y + d.y, x + d.x, d, n - 1) == RaySquare(y, x, d, n)
  {
    AlongShift(y, x, d, n);
    if FirstOccupiedAt(s, y, x, d, n) {
      FirstOccupiedDrop(s, y, x, d, n);
    }
    if n >= 2 && FirstOccupiedAt(s, y + d.y, x + d.x, d, n - 1) {
      FirstOccupiedExtend(s, y, x, d, n);
    }
  }

  lemma FirstOccupiedDrop(s: Position, y: int, x: int, d: Offset, n: int)
    requires |s| == 64 && Unit(d)
    requires InRange(y + d.y, x + d.x) && IsEmpty(s, Index(y + d.y, x + d.x))
    requires FirstOccupiedAt(s, y, x, d, n)
    ensures n >= 2 && FirstOccupiedAt(s, y + d.y, x + d.x, d, n - 1)
  {
    var ny, nx := y + d.y, x + d.x;
    AlongShift(y, x, d, n);
    AlongShift(y, x, d, 1);
    forall m | 1 <= m < n - 1
      ensures OnRay(ny, nx, d, m) && IsEmpty(s, RaySquare(ny, nx, d, m))
    {
      AlongShift(y, x, d, m + 1);
    }
  }

  lemma FirstOccupiedExtend(s: Position, y: int, x: int, d: Offset, n: int)
    requires |s| == 64 && Unit(d)
    requires InRange(y + d.y, x + d.x) && IsEmpty(s, Index(y + d.y, x + d.x))
    requires n >= 2 && FirstOccupiedAt(s, y + d.y, x + d.x, d, n - 1)
    ensures FirstOccupiedAt(s, y, x, d, n)
  {
    var ny, nx := y + d.y, x + d.x;
    AlongShift(y, x, d, n);
    forall m | 1 <= m < n
      ensures OnRay(y, x, d, m) && IsEmpty(s, RaySquare(y, x, d, m))
    {
      AlongShift(y, x, d, m);
    }
  }

  /** A ray whose first step leaves the board has no occupied square. */
  lemma FirstOccupiedOffBoard(s: Position, y: int, x: int, d: Offset, n: int)
    requires |s| == 64 && Unit(d) && !InRange(y + d.y, x + d.x)
    ensures !FirstOccupiedAt(s, y, x, d, n)
  {
    AlongShift(y, x, d, 1);
  }

  /** A ray whose first square is occupied has it as its first occupied square. */
  lemma FirstOccupiedNext(s: Position, y: int, x: int, d: Offset, n: int)
    requires |s| == 64 && Unit(d)
    requires InRange(y + d.y, x + d.x) && !IsEmpty(s, Index(y + d.y, x + d.x))
    ensures FirstOccupiedAt(s, y, x, d, n) <==> n == 1
    ensures RaySquare(y, x, d, 1) == Index(y + d.y, x + d.x)
  {
    AlongShift(y, x, d, 1);
  }

  /** The attacking squares of a ray, as an existential over distances. */
  ghost predicate RayAttacker(s: Position, p: Player, y: int, x: int, d: Offset, dist: int)
    requires |s| == 64
  {
    exists n :: FirstOccupiedAt(s, y, x, d, n) && Attacker(s, p, RaySquare(y, x, d, n), d, dist + n)
  }

  /** Past an empty first square, the ray from `(y, x)` has an attacker
      exactly when the ray from the next square has one, one step closer. */
  lemma RayAttackerShift(s: Position, p: Player, y: int, x: int, d: Offset, dist: int)
    requires |s| == 64 && Unit(d)
    requires InRange(y + d.y, x + d.x) && IsEmpty(s, Index(y + d.y, x + d.x))
    ensures RayAttacker(s, p, y, x, d, dist) <==> RayAttacker(s, p, y + d.y, x + d.x, d, dist + 1)
  {
    if RayAttacker(s, p, y + d.y, x + d.x, d, dist + 1) {
      RayAttackerPull(s, p, y, x, d, dist);
    }
    if RayAttacker(s, p, y, x, d, dist) {
      RayAttackerPush(s, p, y, x, d, dist);
    }
  }

  /** An attacker seen from the next square is seen from `(y, x)`. */
  lemma RayAttackerPull(s: Position, p: Player, y: int, x: int, d: Offset, dist: int)
    requires |s| == 64 && Unit(d)
    requires InRange(y + d.y, x + d.x) && IsEmpty(s, Index(y + d.y, x + d.x))
    requires RayAttacker(s, p, y + d.y, x + d.x, d, dist + 1)
    ensures RayAttacker(s, p, y, x, d, dist)
  {
    var ny, nx := y + d.y, x + d.x;
    var n' :| FirstOccupiedAt(s, ny, nx, d, n') && Attacker(s, p, RaySquare(ny, nx, d, n'), d, dist + 1 + n');
    RayAttackerFrom(s, p, y, x, d, dist, n' + 1);
    assert FirstOccupiedAt(s, y, x, d, n' + 1) && Attacker(s, p, RaySquare(y, x, d, n' + 1), d, dist + (n' + 1));
  }

  /** An attacker seen from `(y, x)` is seen from the next square. */
  lemma RayAttackerPush(s: Position, p: Player, y: int, x: int, d: Offset, dist: int)
    requires |s| == 64 && Unit(d)
    requires InRange(y + d.y, x + d.x) && IsEmpty(s, Index(y + d.y, x + d.x))
    requires RayAttacker(s, p, y, x, d, dist)
    ensures RayAttacker(s, p, y + d.y, x + d.x, d, dist + 1)
  {
    var ny, nx := y + d.y, x + d.x;
    var n :| FirstOccupiedAt(s, y, x, d, n) && Attacker(s, p, RaySquare(y, x, d, n), d, dist + n);
    RayAttackerFrom(s, p, y, x, d, dist, n);
    var n' := n - 1;
    assert dist + 1 + n' == dist + n;
    assert FirstOccupiedAt(s, ny, nx, d, n') && Attacker(s, p, RaySquare(ny, nx, d, n'), d, dist + 1 + n');
  }

  /** One witness distance `n` of the ray from `(y, x)` is a witness
      distance `n - 1` of the ray from the next square, and back. */
  lemma RayAttackerFrom(s: Position, p: Player, y: int, x: int, d: Offset, dist: int, n: int)
    requires |s| == 64 && Unit(d)
    requires InRange(y + d.y, x + d.x) && IsEmpty(s, Index(y + d.y, x + d.x))
    ensures (FirstOccupiedAt(s, y, x, d, n) && Attacker(s, p, RaySquare(y, x, d, n), d, dist + n)) <==>
      (n >= 2 && FirstOccupiedAt(s, y + d.y, x + d.x, d, n - 1) &&
       Attacker(s, p, RaySquare(y + d.y, x + d.x, d, n - 1), d, dist + n))
  {
    FirstOccupiedShift(s, y, x, d, n);
  }

  /** When the first square is off the board or occupied, the ray has an
      attacker exactly when that first square holds one. */
  lemma RayAttackerImmediate(s: Position, p: Player, y: int, x: int, d: Offset, dist: int)
    requires |s| == 64 && Unit(d)
    requires !InRange(y + d.y, x + d.x) || !IsEmpty(s, Index(y + d.y, x + d.x))
    ensures RayAttacker(s, p, y, x, d, dist) <==>
      InRange(y + d.y, x + d.x) && Attacker(s, p, Index(y + d.y, x + d.x), d, dist + 1)
  {
    if !InRange(y + d.y, x + d.x) {
      forall n | FirstOccupiedAt(s, y, x, d, n)
        ensures false
      {
        FirstOccupiedOffBoard(s, y, x, d, n);
      }
    } else {
      FirstOccupiedNext(s, y, x, d, 1);
      forall n | FirstOccupiedAt(s, y, x, d, n)
        ensures n == 1
      {
        FirstOccupiedNext(s, y, x, d, n);
      }
    }
  }

  /** The recursive walk finds check exactly when the first occupied square
      of the ray holds an attacker, at its distance along the ray. */
  lemma RayAttackIff(s: Position, p: Player, y: int, x: int, d: Offset, dist: int)
    requires |s| == 64 && InRange(y, x) && Unit(d)
    ensures RayAttack(s, p, y, x, d, dist) <==>
      exists n :: FirstOccupiedAt(s, y, x, d, n) && Attacker(s, p, RaySquare(y, x, d, n), d, dist + n)
  {
    RayAttackIsRayAttacker(s, p, y, x, d, dist);
  }

  lemma {:induction false} RayAttackIsRayAttacker(s: Position, p: Player, y: int, x: int, d: Offset, dist: int)
    requires |s| == 64 && InRange(y, x) && Unit(d)
    decreases EdgeDistance(y, x, d)
    ensures RayAttack(s, p, y, x, d, dist) == RayAttacker(s, p, y, x, d, dist)
  {
    if !InRange(y + d.y, x + d.x) {
      RayAttackerImmediate(s, p, y, x, d, dist);
    } else {
      RayStep(s, p, y, x, d, dist, y + d.y, x + d.x);
      if IsEmpty(s, Index(y + d.y, x + d.x)) {
        RayAttackIsRayAttacker(s, p, y + d.y, x + d.x, d, dist + 1);
        RayAttackerShift(s, p, y, x, d, dist);
      } else {
        RayAttackerImmediate(s, p, y, x, d, dist);
      }
    }
  }

  // ---------------------------------------------------------------------
  // Pawn and knight attacks, stated by geometry rather than by the tables

  /** One file sideways and one line towards the enemy: the squares from
      which an enemy pawn attacks a piece of `p`. */
  predicate PawnAttackStep(p: Player, d: Offset)
  {
    (d.y == 1 || d.y == -1) && d.x == (if p == White then 1 else -1)
  }

  /** A knight's leap: two squares along one axis and one along the other. */
  predicate KnightLeap(d: Offset)
  {
    || ((d.y == 1 || d.y == -1) && (d.x == 2 || d.x == -2))
    || ((d.y == 2 || d.y == -2) && (d.x == 1 || d.x == -1))
  }

  /** The engine's pawn loop finds an enemy pawn exactly when one sits one
      file sideways and one line ahead of `(y, x)`. */
  lemma PawnCheckIff(s: Position, p: Player, y: int, x: int)
    requires |s| == 64
    ensures PawnCheck(s, p, y, x) <==>
      exists d :: PawnAttackStep(p, d) && OccupiedAt(s, y, x, d, Opponent(p), Pawn)
  {
    var ds := PawnDiagonals(p);
    assert forall d :: PawnAttackStep(p, d) ==> d == ds[0] || d == ds[1];
    if exists d :: PawnAttackStep(p, d) && OccupiedAt(s, y, x, d, Opponent(p), Pawn) {
      var d :| PawnAttackStep(p, d) && OccupiedAt(s, y, x, d, Opponent(p), Pawn);
      if d == ds[0] {
        assert OccupiedAt(s, y, x, ds[0], Opponent(p), Pawn);
      } else {
        assert OccupiedAt(s, y, x, ds[1], Opponent(p), Pawn);
      }
    }
    if PawnCheck(s, p, y, x) {
      var k :| 0 <= k < 2 && OccupiedAt(s, y, x, ds[k], Opponent(p), Pawn);
      assert PawnAttackStep(p, ds[k]);
    }
  }

  /** The engine's knight loop finds an enemy knight exactly when one sits a
      knight's leap away from `(y, x)`: its table holds every leap. */
  lemma KnightCheckIff(s: Position, p: Player, y: int, x: int)
    requires |s| == 64
    ensures KnightCheck(s, p, y, x) <==>
      exists d :: KnightLeap(d) && OccupiedAt(s, y, x, d, Opponent(p), Knight)
  {
    if exists d :: KnightLeap(d) && OccupiedAt(s, y, x, d, Opponent(p), Knight) {
      var d :| KnightLeap(d) && OccupiedAt(s, y, x, d, Opponent(p), Knight);
      var k :| 0 <= k < 8 && KNIGHT_SPACES[k] == d by {
        assert d in KNIGHT_SPACES;
      }
      assert OccupiedAt(s, y, x, KNIGHT_SPACES[k], Opponent(p), Knight);
    }
    if KnightCheck(s, p, y, x) {
      var k :| 0 <= k < 8 && OccupiedAt(s, y, x, KNIGHT_SPACES[k], Opponent(p), Knight);
      assert KnightLeap(KNIGHT_SPACES[k]);
    }
  }

  /** Check detection in declarative form: `p` is in check exactly when it
      has a king and, from the king's square, an enemy pawn sits one file
      sideways and one line ahead, an enemy knight two squares along one axis
      and one along the other, or the first occupied square of
      some ray holds an enemy queen, an adjacent enemy king, an enemy rook on
      an orthogonal ray or an enemy bishop on a diagonal ray. */
  lemma CheckedIff(s: Position, p: Player)
    requires |s| == 64
    ensures Checked(s, p) <==>
      && HasKing(s, p)
      && var k := FirstIndexOf(s, p, King).value;
         || (exists d :: PawnAttackStep(p, d) && OccupiedAt(s, k / 8, k % 8, d, Opponent(p), Pawn))
         || (exists d :: KnightLeap(d) && OccupiedAt(s, k / 8, k % 8, d, Opponent(p), Knight))
         || (exists j, n :: 0 <= j < 8 && FirstOccupiedAt(s, k / 8, k % 8, ROYALTY_SPACES[j], n) &&
               Attacker(s, p, RaySquare(k / 8, k % 8, ROYALTY_SPACES[j], n), ROYALTY_SPACES[j], n))
  {
    SpacesShape();
    if HasKing(s, p) {
      var k := FirstIndexOf(s, p, King).value;
      var y, x := k / 8, k % 8;
      PawnCheckIff(s, p, y, x);
      KnightCheckIff(s, p, y, x);
      forall j | 0 <= j < 8
        ensures RayAttack(s, p, y, x, ROYALTY_SPACES[j], 0) <==>
          exists n :: FirstOccupiedAt(s, y, x, ROYALTY_SPACES[j], n) &&
            Attacker(s, p, RaySquare(y, x, ROYALTY_SPACES[j], n), ROYALTY_SPACES[j], n)
      {
        RayAttackIff(s, p, y, x, ROYALTY_SPACES[j], 0);
      }
    }
  }

  // ---------------------------------------------------------------------
  // The cached legal moves play no part in check detection

  lemma OccupiedAtIgnoresLegalMoves(s1: Position, s2: Position, y: int, x: int, d: Offset, player: Player, name: Name)
    requires |s1| == 64 && SameExceptLegalMoves(s1, s2)
    ensures OccupiedAt(s1, y, x, d, player, name) == OccupiedAt(s2, y, x, d, player, name)
  {
    if InRange(y + d.y, x + d.x) {
      SameExceptLegalMovesFacts(s1, s2, Index(y + d.y, x + d.x));
    }
  }

  lemma {:induction false} RayAttackIgnoresLegalMoves(s1: Position, s2: Position, p: Player, y: int, x: int, d: Offset, dist: int)
    requires |s1| == 64 && SameExceptLegalMoves(s1, s2) && InRange(y, x) && d != Offset(0, 0)
    decreases EdgeDistance(y, x, d)
    ensures RayAttack(s1, p, y, x, d, dist) == RayAttack(s2, p, y, x, d, dist)
  {
    if InRange(y + d.y, x + d.x) {
      var t := Index(y + d.y, x + d.x);
      SameExceptLegalMovesFacts(s1, s2, t);
      if IsEmpty(s1, t) {
        RayAttackIgnoresLegalMoves(s1, s2, p, y + d.y, x + d.x, d, dist + 1);
      }
    }
  }

  /** Two positions that differ only in their cached legal moves agree on check. */
  lemma CheckedIgnoresLegalMoves(s1: Position, s2: Position, p: Player)
    requires |s1| == 64 && SameExceptLegalMoves(s1, s2)
    ensures Checked(s1, p) == Checked(s2, p)
  {
    FirstIndexIgnoresLegalMoves(s1, s2, p, King);
    SpacesShape();
    if HasKing(s1, p) {
      var k := FirstIndexOf(s1, p, King).value;
      var y, x := k / 8, k % 8;
      forall j | 0 <= j < 2
        ensures OccupiedAt(s1, y, x, PawnDiagonals(p)[j], Opponent(p), Pawn) == OccupiedAt(s2, y, x, PawnDiagonals(p)[j], Opponent(p), Pawn)
      {
        OccupiedAtIgnoresLegalMoves(s1, s2, y, x, PawnDiagonals(p)[j], Opponent(p), Pawn);
      }
      forall j | 0 <= j < 8
        ensures OccupiedAt(s1, y, x, KNIGHT_SPACES[j], Opponent(p), Knight) == OccupiedAt(s2, y, x, KNIGHT_SPACES[j], Opponent(p), Knight)
      {
        OccupiedAtIgnoresLegalMoves(s1, s2, y, x, KNIGHT_SPACES[j], Opponent(p), Knight);
      }
      forall j | 0 <= j < 8
        ensures RayAttack(s1, p, y, x, ROYALTY_SPACES[j], 0) == RayAttack(s2, p, y, x, ROYALTY_SPACES[j], 0)
      {
        RayAttackIgnoresLegalMoves(s1, s2, p, y, x, ROYALTY_SPACES[j], 0);
      }
    }
  }
}
