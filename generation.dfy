/**
 * Legal-move generation as a pure specification.
 *
 * For the piece on a square, the engine walks its step vectors in a fixed
 * order and proposes candidate destinations; each candidate is kept only if
 * making the move would not leave the mover's king in check. The candidate
 * sequences below list the proposals in the engine's order, and `Filter`
 * records the surviving ones the way the engine fills a piece's
 * `legalMoves` map. `Rule` states the movement rules independently, and
 * `LegalMovesIff` ties the two together.
 */
module Generation {
  import opened Squares
  import opened Pieces
  import opened Positions
  import opened Check

  /** A proposed destination and the move type it would be recorded with. */
  datatype Candidate = Candidate(to: int, moveType: MoveType)

  /** A square a piece of `p` may land on: empty, or an enemy piece that is not a king. */
  predicate Open(s: Position, t: int, p: Player)
    requires 0 <= t < |s|
  {
    IsEmpty(s, t) || IsCapturable(s, t, p)
  }

  /** Every candidate lands on an open square of the board other than `(y, x)`. */
  predicate WellFormed(s: Position, p: Player, y: int, x: int, cands: seq<Candidate>)
    requires |s| == 64
  {
    forall c :: c in cands ==> 0 <= c.to < 64 && c.to != Index(y, x) && Open(s, c.to, p)
  }

  predicate AllDefault(cands: seq<Candidate>)
  {
    forall c :: c in cands ==> c.moveType == Default
  }

  // ---------------------------------------------------------------------
  // Leaps: one step per vector (knight, king, pawn captures)

  /** The step `d` from `(y, x)` stays on the board, lands on `t`, and `t`
      is empty (when quiet moves are allowed) or capturable. */
  predicate LeapTo(s: Position, p: Player, y: int, x: int, d: Offset, quiet: bool, t: int)
    requires |s| == 64
  {
    InRange(y + d.y, x + d.x) && t == Index(y + d.y, x + d.x) &&
    ((quiet && IsEmpty(s, t)) || IsCapturable(s, t, p))
  }

  /** One candidate per step vector that passes `LeapTo`, in vector order. */
  function LeapCandidates(s: Position, p: Player, y: int, x: int, spaces: seq<Offset>, quiet: bool): (r: seq<Candidate>)
    requires |s| == 64 && InRange(y, x) && NonNull(spaces)
    ensures WellFormed(s, p, y, x, r) && AllDefault(r)
    decreases |spaces|
  {
    if spaces == [] then []
    else
      var d := spaces[0];
      var rest := LeapCandidates(s, p, y, x, spaces[1..], quiet);
      if LeapTo(s, p, y, x, d, quiet, Index(y + d.y, x + d.x)) then
        IndexInjective(y, x, y + d.y, x + d.x);
        [Candidate(Index(y + d.y, x + d.x), Default)] + rest
      else rest
  }

  /** A square is proposed by the leaps exactly when some step vector reaches it. */
  lemma LeapMembership(s: Position, p: Player, y: int, x: int, spaces: seq<Offset>, quiet: bool, t: int)
    requires |s| == 64 && InRange(y, x) && NonNull(spaces)
    ensures Candidate(t, Default) in LeapCandidates(s, p, y, x, spaces, quiet)
      <==> exists d :: d in spaces && LeapTo(s, p, y, x, d, quiet, t)
  {
    if Candidate(t, Default) in LeapCandidates(s, p, y, x, spaces, quiet) {
      LeapProposedReaches(s, p, y, x, spaces, quiet, t);
    }
    if exists d :: d in spaces && LeapTo(s, p, y, x, d, quiet, t) {
      var d :| d in spaces && LeapTo(s, p, y, x, d, quiet, t);
      LeapReachesProposed(s, p, y, x, spaces, quiet, t, d);
    }
  }

  lemma {:induction false} LeapProposedReaches(s: Position, p: Player, y: int, x: int, spaces: seq<Offset>, quiet: bool, t: int)
    requires |s| == 64 && InRange(y, x) && NonNull(spaces)
    requires Candidate(t, Default) in LeapCandidates(s, p, y, x, spaces, quiet)
    decreases |spaces|
    ensures exists d :: d in spaces && LeapTo(s, p, y, x, d, quiet, t)
  {
    var d0 := spaces[0];
    var rest := LeapCandidates(s, p, y, x, spaces[1..], quiet);
    if LeapTo(s, p, y, x, d0, quiet, Index(y + d0.y, x + d0.x)) && t == Index(y + d0.y, x + d0.x) {
      assert d0 in spaces;
    } else {
      assert Candidate(t, Default) in rest;
      LeapProposedReaches(s, p, y, x, spaces[1..], quiet, t);
      var d :| d in spaces[1..] && LeapTo(s, p, y, x, d, quiet, t);
      assert d in spaces;
    }
  }

  lemma {:induction false} LeapReachesProposed(s: Position, p: Player, y: int, x: int, spaces: seq<Offset>, quiet: bool, t: int, d: Offset)
    requires |s| == 64 && InRange(y, x) && NonNull(spaces)
    requires d in spaces && LeapTo(s, p, y, x, d, quiet, t)
    decreases |spaces|
    ensures Candidate(t, Default) in LeapCandidates(s, p, y, x, spaces, quiet)
  {
    var d0 := spaces[0];
    if d != d0 {
      assert d in spaces[1..];
      LeapReachesProposed(s, p, y, x, spaces[1..], quiet, t, d);
      var rest := LeapCandidates(s, p, y, x, spaces[1..], quiet);
      assert LeapCandidates(s, p, y, x, spaces, quiet) == rest ||
        LeapCandidates(s, p, y, x, spaces, quiet) == [Candidate(Index(y + d0.y, x + d0.x), Default)] + rest;
    }
  }

  // ---------------------------------------------------------------------
  // Rays: repeated steps (bishop, rook, queen)

  lemma AlongShiftAll(y: int, x: int, d: Offset, ny: int, nx: int)
    requires Unit(d) && ny == y + d.y && nx == x + d.x
    ensures forall m :: OnRay(ny, nx, d, m) == OnRay(y, x, d, m + 1)
    ensures forall m :: RaySquare(ny, nx, d, m) == RaySquare(y, x, d, m + 1)
  {
    forall m
      ensures OnRay(ny, nx, d, m) == OnRay(y, x, d, m + 1)
      ensures RaySquare(ny, nx, d, m) == RaySquare(y, x, d, m + 1)
    {
      AlongShift(y, x, d, m + 1);
    }
  }

  /** The k-th candidate of a ray is the square k + 1 steps along it. */
  predicate RayShaped(y: int, x: int, d: Offset, r: seq<Candidate>)
  {
    forall k :: 0 <= k < |r| ==> RayStepAt(y, x, d, k + 1, r[k])
  }

  /** `c` is the square `m` steps along `d` from `(y, x)`, on the board. */
  predicate RayStepAt(y: int, x: int, d: Offset, m: int, c: Candidate)
  {
    OnRay(y, x, d, m) && c == Candidate(RaySquare(y, x, d, m), Default)
  }

  lemma RayShapedCons(y: int, x: int, d: Offset, ny: int, nx: int, rest: seq<Candidate>)
    requires Unit(d) && ny == y + d.y && nx == x + d.x && InRange(ny, nx)
    requires RayShaped(ny, nx, d, rest)
    ensures RayShaped(y, x, d, [Candidate(Index(ny, nx), Default)] + rest)
  {
    var r := [Candidate(Index(ny, nx), Default)] + rest;
    forall k | 0 <= k < |r|
      ensures RayStepAt(y, x, d, k + 1, r[k])
    {
      RayShapedConsAt(y, x, d, ny, nx, rest, k);
    }
  }

  lemma RayShapedConsAt(y: int, x: int, d: Offset, ny: int, nx: int, rest: seq<Candidate>, k: int)
    requires Unit(d) && ny == y + d.y && nx == x + d.x && InRange(ny, nx)
    requires RayShaped(ny, nx, d, rest) && 0 <= k <= |rest|
    ensures OnRay(y, x, d, k + 1)
    ensures ([Candidate(Index(ny, nx), Default)] + rest)[k] == Candidate(RaySquare(y, x, d, k + 1), Default)
  {
    AlongShift(y, x, d, k + 1);
    if k == 0 {
      assert Along(ny, d.y, 0) == ny && Along(nx, d.x, 0) == nx;
    } else {
      assert ([Candidate(Index(ny, nx), Default)] + rest)[k] == rest[k - 1];
    }
  }

  /** The squares along `d` from `(y, x)`: every empty square up to the
      first occupied one, and that one too when it is capturable. */
  function RayCandidates(s: Position, p: Player, y: int, x: int, d: Offset): (r: seq<Candidate>)
    requires |s| == 64 && InRange(y, x) && Unit(d)
    ensures RayShaped(y, x, d, r)
    ensures forall k :: 0 <= k < |r| ==> 0 <= r[k].to < 64 && Open(s, r[k].to, p)
    ensures forall k :: 0 <= k < |r| - 1 ==> IsEmpty(s, r[k].to)
    decreases EdgeDistance(y, x, d)
  {
    var ny, nx := y + d.y, x + d.x;
    AlongShift(y, x, d, 1);
    if !InRange(ny, nx) then []
    else
      var t := Index(ny, nx);
      if IsEmpty(s, t) then
        var rest := RayCandidates(s, p, ny, nx, d);
        RayShapedCons(y, x, d, ny, nx, rest);
        [Candidate(t, Default)] + rest
      else if IsCapturable(s, t, p) then [Candidate(t, Default)]
      else []
  }

  /** The square `m` steps along `d` is reachable: it is on the board and
      open, and every square before it is on the board and empty. */
  predicate RayReach(s: Position, p: Player, y: int, x: int, d: Offset, m: int)
    requires |s| == 64
  {
    && m >= 1
    && OnRay(y, x, d, m)
    && Open(s, RaySquare(y, x, d, m), p)
    && forall j :: 1 <= j < m ==> OnRay(y, x, d, j) && IsEmpty(s, RaySquare(y, x, d, j))
  }

  lemma {:induction false} RayReachWithin(s: Position, p: Player, y: int, x: int, d: Offset, m: int)
    requires |s| == 64 && InRange(y, x) && Unit(d) && RayReach(s, p, y, x, d, m)
    decreases EdgeDistance(y, x, d)
    ensures m <= |RayCandidates(s, p, y, x, d)|
  {
    var ny, nx := y + d.y, x + d.x;
    AlongShift(y, x, d, 1);
    assert InRange(ny, nx) && Open(s, Index(ny, nx), p);
    if m > 1 {
      RayReachShift(s, p, y, x, d, ny, nx, m);
      StepCloser(y, x, d, ny, nx);
      RayReachWithin(s, p, ny, nx, d, m - 1);
      RayCandidatesPastEmpty(s, p, y, x, d, ny, nx);
    }
  }

  /** Past an empty next square, the ray proposes that square and then
      the squares of the ray from it. */
  lemma RayCandidatesPastEmpty(s: Position, p: Player, y: int, x: int, d: Offset, ny: int, nx: int)
    requires |s| == 64 && InRange(y, x) && Unit(d)
    requires ny == y + d.y && nx == x + d.x && InRange(ny, nx) && IsEmpty(s, Index(ny, nx))
    ensures RayCandidates(s, p, y, x, d) == [Candidate(Index(ny, nx), Default)] + RayCandidates(s, p, ny, nx, d)
  {
  }

  /** Past an empty first square, a square reachable `m` steps along `d`
      is reachable `m - 1` steps along it from the next square. */
  lemma RayReachShift(s: Position, p: Player, y: int, x: int, d: Offset, ny: int, nx: int, m: int)
    requires |s| == 64 && Unit(d) && ny == y + d.y && nx == x + d.x
    requires RayReach(s, p, y, x, d, m) && m > 1
    ensures InRange(ny, nx) && IsEmpty(s, Index(ny, nx))
    ensures RayReach(s, p, ny, nx, d, m - 1)
  {
    AlongShift(y, x, d, 1);
    assert OnRay(y, x, d, 1) && IsEmpty(s, RaySquare(y, x, d, 1));
    AlongShiftAll(y, x, d, ny, nx);
    forall j | 1 <= j < m - 1
      ensures OnRay(ny, nx, d, j) && IsEmpty(s, RaySquare(ny, nx, d, j))
    {
      assert OnRay(y, x, d, j + 1) && IsEmpty(s, RaySquare(y, x, d, j + 1));
    }
  }

  /** Bishop, rook and queen rays: a square along `d` is proposed exactly
      when every square before it is empty and it is itself open; so every
      empty square up to the first occupied one is proposed, that one only
      when capturable, and nothing beyond it. */
  lemma RayMembership(s: Position, p: Player, y: int, x: int, d: Offset, c: Candidate)
    requires |s| == 64 && InRange(y, x) && Unit(d)
    ensures c in RayCandidates(s, p, y, x, d)
      <==> c.moveType == Default && exists m :: RayReach(s, p, y, x, d, m) && c.to == RaySquare(y, x, d, m)
  {
    var r := RayCandidates(s, p, y, x, d);
    if c in r {
      var k :| 0 <= k < |r| && r[k] == c;
      forall j | 1 <= j < k + 1
        ensures OnRay(y, x, d, j) && IsEmpty(s, RaySquare(y, x, d, j))
      {
        assert r[j - 1].to == RaySquare(y, x, d, j);
      }
      assert RayReach(s, p, y, x, d, k + 1);
    }
    if c.moveType == Default && exists m :: RayReach(s, p, y, x, d, m) && c.to == RaySquare(y, x, d, m) {
      var m :| RayReach(s, p, y, x, d, m) && c.to == RaySquare(y, x, d, m);
      RayReachWithin(s, p, y, x, d, m);
      assert r[m - 1] == c;
    }
  }

  lemma RaySquareInjective(y: int, x: int, d: Offset, m1: int, m2: int)
    requires Unit(d) && OnRay(y, x, d, m1) && OnRay(y, x, d, m2)
    ensures RaySquare(y, x, d, m1) == RaySquare(y, x, d, m2) <==> m1 == m2
  {
    IndexInjective(Along(y, d.y, m1), Along(x, d.x, m1), Along(y, d.y, m2), Along(x, d.x, m2));
  }

  /** A square beyond the first occupied square of a ray is never proposed. */
  lemma NothingBeyondFirstOccupied(s: Position, p: Player, y: int, x: int, d: Offset, n: int, m: int)
    requires |s| == 64 && InRange(y, x) && Unit(d)
    requires FirstOccupiedAt(s, y, x, d, n) && m > n
    ensures forall c :: c in RayCandidates(s, p, y, x, d) ==> c.to != RaySquare(y, x, d, m)
  {
    var r := RayCandidates(s, p, y, x, d);
    forall c | c in r
      ensures c.to != RaySquare(y, x, d, m)
    {
      RayMembership(s, p, y, x, d, c);
      var m' :| RayReach(s, p, y, x, d, m') && c.to == RaySquare(y, x, d, m');
      if OnRay(y, x, d, m) {
        RaySquareInjective(y, x, d, m', m);
      }
    }
  }

  lemma RaysAvoidOrigin(s: Position, p: Player, y: int, x: int, d: Offset)
    requires |s| == 64 && InRange(y, x) && Unit(d)
    ensures WellFormed(s, p, y, x, RayCandidates(s, p, y, x, d)) && AllDefault(RayCandidates(s, p, y, x, d))
  {
    var r := RayCandidates(s, p, y, x, d);
    forall c | c in r
      ensures c.to != Index(y, x)
    {
      var k :| 0 <= k < |r| && r[k] == c;
      assert OnRay(y, x, d, k + 1);
      IndexInjective(y, x, Along(y, d.y, k + 1), Along(x, d.x, k + 1));
    }
  }

  /** The rays along each vector of `spaces` in turn. */
  function SlideCandidates(s: Position, p: Player, y: int, x: int, spaces: seq<Offset>): (r: seq<Candidate>)
    requires |s| == 64 && InRange(y, x) && Directions(spaces)
    ensures WellFormed(s, p, y, x, r) && AllDefault(r)
    decreases |spaces|
  {
    if spaces == [] then []
    else
      RaysAvoidOrigin(s, p, y, x, spaces[0]);
      RayCandidates(s, p, y, x, spaces[0]) + SlideCandidates(s, p, y, x, spaces[1..])
  }

  /** A square is proposed by the slides exactly when some ray reaches it. */
  lemma {:induction false} SlideMembership(s: Position, p: Player, y: int, x: int, spaces: seq<Offset>, c: Candidate)
    requires |s| == 64 && InRange(y, x) && Directions(spaces)
    decreases |spaces|
    ensures c in SlideCandidates(s, p, y, x, spaces)
      <==> c.moveType == Default && exists d, m :: d in spaces && RayReach(s, p, y, x, d, m) && c.to == RaySquare(y, x, d, m)
  {
    if spaces != [] {
      SlideMembership(s, p, y, x, spaces[1..], c);
      RayMembership(s, p, y, x, spaces[0], c);
      assert spaces == [spaces[0]] + spaces[1..];
      if exists d, m :: d in spaces && RayReach(s, p, y, x, d, m) && c.to == RaySquare(y, x, d, m) {
        var d, m :| d in spaces && RayReach(s, p, y, x, d, m) && c.to == RaySquare(y, x, d, m);
        if d != spaces[0] {
          assert d in spaces[1..];
        }
      }
    }
  }

  // ---------------------------------------------------------------------
  // Pawns

  /** The first part of a pawn's proposals: one step ahead when that square
      is empty; then, on the pawn's first move, a second step ahead when
      that square is empty too. */
  function PawnAdvances(s: Position, y: int, x: int): (r: seq<Candidate>)
    requires |s| == 64 && InRange(y, x) && s[Index(y, x)].Some?
  {
    var piece := s[Index(y, x)].value;
    var a := PawnAdvance(piece.player);
    if InRange(y + a.y, x + a.x) && IsEmpty(s, Index(y + a.y, x + a.x)) then
      [Candidate(Index(y + a.y, x + a.x), Default)] +
      (if piece.moveCount == 0 && InRange(y + 2 * a.y, x + 2 * a.x) && IsEmpty(s, Index(y + 2 * a.y, x + 2 * a.x))
       then [Candidate(Index(y + 2 * a.y, x + 2 * a.x), MoveTwoSpaces)]
       else [])
    else []
  }

  /** A pawn's proposals, in the engine's order: its advances, then the two
      forward diagonals when they hold a capturable piece. */
  function PawnCandidates(s: Position, y: int, x: int): (r: seq<Candidate>)
    requires |s| == 64 && InRange(y, x) && s[Index(y, x)].Some?
  {
    var p := s[Index(y, x)].value.player;
    SpacesShape();
    PawnAdvances(s, y, x) + LeapCandidates(s, p, y, x, PawnDiagonals(p), false)
  }

  /** The pawn rules from `(y, x)`: an advance or a diagonal capture. */
  ghost predicate PawnRule(s: Position, y: int, x: int, t: int, mt: MoveType)
    requires |s| == 64 && InRange(y, x) && s[Index(y, x)].Some?
  {
    PawnAdvanceRule(s, y, x, t, mt) || PawnCaptureRule(s, y, x, t, mt)
  }

  /** With `a` the pawn's direction on its line: one square ahead onto an
      empty square; two squares ahead, with move type MoveTwoSpaces, on the
      pawn's first move when both squares are empty. */
  ghost predicate PawnAdvanceRule(s: Position, y: int, x: int, t: int, mt: MoveType)
    requires |s| == 64 && InRange(y, x) && s[Index(y, x)].Some?
  {
    var piece := s[Index(y, x)].value;
    var a := PawnAdvance(piece.player).x;
    || (mt == Default && InRange(y, x + a) && t == Index(y, x + a) && IsEmpty(s, t))
    || (&& mt == MoveTwoSpaces && piece.moveCount == 0
        && InRange(y, x + 2 * a) && t == Index(y, x + 2 * a)
        && IsEmpty(s, Index(y, x + a)) && IsEmpty(s, t))
  }

  /** One square diagonally ahead onto a capturable piece. */
  ghost predicate PawnCaptureRule(s: Position, y: int, x: int, t: int, mt: MoveType)
    requires |s| == 64 && InRange(y, x) && s[Index(y, x)].Some?
  {
    var piece := s[Index(y, x)].value;
    var a := PawnAdvance(piece.player).x;
    && mt == Default
    && ((InRange(y - 1, x + a) && t == Index(y - 1, x + a)) || (InRange(y + 1, x + a) && t == Index(y + 1, x + a)))
    && IsCapturable(s, t, piece.player)
  }

  /** A pawn's advances are exactly the moves the advance rules allow. */
  lemma PawnAdvanceMembership(s: Position, y: int, x: int, c: Candidate)
    requires |s| == 64 && InRange(y, x) && s[Index(y, x)].Some?
    ensures c in PawnAdvances(s, y, x) <==> PawnAdvanceRule(s, y, x, c.to, c.moveType)
  {
  }

  /** A pawn's diagonal leaps are exactly the moves the capture rule allows. */
  lemma PawnCaptureMembership(s: Position, y: int, x: int, c: Candidate)
    requires |s| == 64 && InRange(y, x) && s[Index(y, x)].Some?
    ensures var p := s[Index(y, x)].value.player;
      c in LeapCandidates(s, p, y, x, PawnDiagonals(p), false) <==> PawnCaptureRule(s, y, x, c.to, c.moveType)
  {
    var p := s[Index(y, x)].value.player;
    SpacesShape();
    var ds := PawnDiagonals(p);
    LeapMembership(s, p, y, x, ds, false, c.to);
    assert (exists d :: d in ds && LeapTo(s, p, y, x, d, false, c.to)) <==>
      LeapTo(s, p, y, x, ds[0], false, c.to) || LeapTo(s, p, y, x, ds[1], false, c.to);
    var leaps := LeapCandidates(s, p, y, x, ds, false);
    assert c in leaps ==> c.moveType == Default;
  }

  /** A pawn proposes exactly the moves the pawn rules allow. */
  lemma PawnMembership(s: Position, y: int, x: int, c: Candidate)
    requires |s| == 64 && InRange(y, x) && s[Index(y, x)].Some?
    ensures c in PawnCandidates(s, y, x) <==> PawnRule(s, y, x, c.to, c.moveType)
  {
    PawnAdvanceMembership(s, y, x, c);
    PawnCaptureMembership(s, y, x, c);
  }

  /** The pawn rules never give one destination two move types. */
  lemma PawnRuleFunctional(s: Position, y: int, x: int, t: int, mt1: MoveType, mt2: MoveType)
    requires |s| == 64 && InRange(y, x) && s[Index(y, x)].Some?
    requires PawnRule(s, y, x, t, mt1) && PawnRule(s, y, x, t, mt2)
    ensures mt1 == mt2
  {
    var a := PawnAdvance(s[Index(y, x)].value.player).x;
    if InRange(y, x + 2 * a) {
      IndexInjective(y, x + 2 * a, y, x + a);
      if InRange(y - 1, x + a) {
        IndexInjective(y, x + 2 * a, y - 1, x + a);
      }
      if InRange(y + 1, x + a) {
        IndexInjective(y, x + 2 * a, y + 1, x + a);
      }
    }
  }

  // ---------------------------------------------------------------------
  // All pieces

  /** The proposals for the piece on square `i`, by its kind. */
  function Candidates(s: Position, i: int): (r: seq<Candidate>)
    requires |s| == 64 && 0 <= i < 64 && s[i].Some?
  {
    var piece := s[i].value;
    var y, x := i / 8, i % 8;
    DecodeIndex(i);
    SpacesShape();
    match piece.name
    case Pawn => PawnCandidates(s, y, x)
    case Knight => LeapCandidates(s, piece.player, y, x, KNIGHT_SPACES, true)
    case King => LeapCandidates(s, piece.player, y, x, ROYALTY_SPACES, true)
    case Bishop => SlideCandidates(s, piece.player, y, x, BISHOP_SPACES)
    case Rook => SlideCandidates(s, piece.player, y, x, ROOK_SPACES)
    case Queen => SlideCandidates(s, piece.player, y, x, ROYALTY_SPACES)
  }

  /** The square `t` is one of the sliding destinations along `spaces`. */
  ghost predicate SlideRule(s: Position, p: Player, y: int, x: int, spaces: seq<Offset>, t: int)
    requires |s| == 64
  {
    exists d, m :: d in spaces && RayReach(s, p, y, x, d, m) && t == RaySquare(y, x, d, m)
  }

  /** The movement rules, ignoring check: pawns by `PawnRule`; a knight to
      any open square a knight's leap away; a king to any open neighbouring
      square; bishops along the diagonals, rooks along the lines and files,
      queens along all eight rays, as far as `RayReach` allows. */
  ghost predicate Rule(s: Position, i: int, t: int, mt: MoveType)
    requires |s| == 64 && 0 <= i < 64 && s[i].Some?
  {
    var piece := s[i].value;
    var y, x := i / 8, i % 8;
    DecodeIndex(i);
    match piece.name
    case Pawn => PawnRule(s, y, x, t, mt)
    case Knight => mt == Default && exists d :: d in KNIGHT_SPACES && LeapTo(s, piece.player, y, x, d, true, t)
    case King => mt == Default && exists d :: d in ROYALTY_SPACES && LeapTo(s, piece.player, y, x, d, true, t)
    case Bishop => mt == Default && SlideRule(s, piece.player, y, x, BISHOP_SPACES, t)
    case Rook => mt == Default && SlideRule(s, piece.player, y, x, ROOK_SPACES, t)
    case Queen => mt == Default && SlideRule(s, piece.player, y, x, ROYALTY_SPACES, t)
  }

  /** The proposals are exactly the destinations the movement rules allow. */
  lemma CandidatesIff(s: Position, i: int, c: Candidate)
    requires |s| == 64 && 0 <= i < 64 && s[i].Some?
    ensures c in Candidates(s, i) <==> Rule(s, i, c.to, c.moveType)
  {
    var piece := s[i].value;
    var y, x := i / 8, i % 8;
    DecodeIndex(i);
    SpacesShape();
    match piece.name
    case Pawn =>
      PawnMembership(s, y, x, c);
    case Knight =>
      LeapMembership(s, piece.player, y, x, KNIGHT_SPACES, true, c.to);
    case King =>
      LeapMembership(s, piece.player, y, x, ROYALTY_SPACES, true, c.to);
    case Bishop =>
      SlideMembership(s, piece.player, y, x, BISHOP_SPACES, c);
    case Rook =>
      SlideMembership(s, piece.player, y, x, ROOK_SPACES, c);
    case Queen =>
      SlideMembership(s, piece.player, y, x, ROYALTY_SPACES, c);
  }

  /** The rules give each destination at most one move type. */
  lemma RuleFunctional(s: Position, i: int, t: int, mt1: MoveType, mt2: MoveType)
    requires |s| == 64 && 0 <= i < 64 && s[i].Some?
    requires Rule(s, i, t, mt1) && Rule(s, i, t, mt2)
    ensures mt1 == mt2
  {
    DecodeIndex(i);
    if s[i].value.name == Pawn {
      PawnRuleFunctional(s, i / 8, i % 8, t, mt1, mt2);
    }
  }

  /** Every proposal lands on an open square of the board other than the
      piece's own square. */
  lemma CandidatesWellFormed(s: Position, i: int)
    requires |s| == 64 && 0 <= i < 64 && s[i].Some?
    ensures WellFormed(s, s[i].value.player, i / 8, i % 8, Candidates(s, i))
  {
    var piece := s[i].value;
    var y, x := i / 8, i % 8;
    DecodeIndex(i);
    SpacesShape();
    if piece.name == Pawn {
      var r := Candidates(s, i);
      forall c | c in r
        ensures 0 <= c.to < 64 && c.to != Index(y, x) && Open(s, c.to, piece.player)
      {
        PawnMembership(s, y, x, c);
        var a := PawnAdvance(piece.player).x;
        if InRange(y, x + a) {
          IndexInjective(y, x, y, x + a);
        }
        if InRange(y, x + 2 * a) {
          IndexInjective(y, x, y, x + 2 * a);
        }
      }
    }
  }

  // ---------------------------------------------------------------------
  // The check filter

  /** Moving the piece on `from` to `to` does not leave `p` in check. */
  predicate Safe(s: Position, p: Player, from: int, to: int)
    requires |s| == 64 && 0 <= from < 64 && 0 <= to < 64 && s[from].Some?
  {
    !Checked(AfterMove(s, from, to), p)
  }

  /** Check safety does not depend on the cached legal moves. */
  lemma SafeIgnoresLegalMoves(s0: Position, s: Position, p: Player, from: int, to: int)
    requires |s0| == 64 && SameExceptLegalMoves(s0, s)
    requires 0 <= from < 64 && 0 <= to < 64 && s0[from].Some?
    ensures s[from].Some?
    ensures Safe(s0, p, from, to) == !Checked(AfterMove(s, from, to), p)
  {
    MoveKeepsSameExceptLegalMoves(s0, s, from, to);
    CheckedIgnoresLegalMoves(AfterMove(s0, from, to), AfterMove(s, from, to), p);
  }

  predicate OnBoard(cands: seq<Candidate>)
  {
    forall c :: c in cands ==> 0 <= c.to < 64
  }

  /** Records the candidates in order into `acc`, each only when it is safe. */
  function Filter(s: Position, p: Player, from: int, cands: seq<Candidate>, acc: map<int, MoveType>): map<int, MoveType>
    requires |s| == 64 && 0 <= from < 64 && s[from].Some? && OnBoard(cands)
    decreases |cands|
  {
    if cands == [] then acc
    else
      var c := cands[0];
      assert c in cands;
      Filter(s, p, from, cands[1..], if Safe(s, p, from, c.to) then acc[c.to := c.moveType] else acc)
  }

  /** The recorded destinations are those already present and the safe
      candidates; each recorded value is the old one or a safe candidate's
      move type. */
  lemma {:induction false} FilterSpec(s: Position, p: Player, from: int, cands: seq<Candidate>, acc: map<int, MoveType>)
    requires |s| == 64 && 0 <= from < 64 && s[from].Some? && OnBoard(cands)
    decreases |cands|
    ensures forall t :: t in Filter(s, p, from, cands, acc) <==>
      t in acc || exists c :: c in cands && c.to == t && Safe(s, p, from, t)
    ensures forall t :: t in Filter(s, p, from, cands, acc) ==>
      (t in acc && Filter(s, p, from, cands, acc)[t] == acc[t]) ||
      (Candidate(t, Filter(s, p, from, cands, acc)[t]) in cands && Safe(s, p, from, t))
  {
    if cands != [] {
      var c := cands[0];
      assert c in cands;
      var acc' := if Safe(s, p, from, c.to) then acc[c.to := c.moveType] else acc;
      var tail := cands[1..];
      assert cands == [c] + tail;
      FilterSpec(s, p, from, tail, acc');
    }
  }

  /** Filtering a concatenation filters the first part, then the second. */
  lemma {:induction false} FilterConcat(s: Position, p: Player, from: int, c1: seq<Candidate>, c2: seq<Candidate>, acc: map<int, MoveType>)
    requires |s| == 64 && 0 <= from < 64 && s[from].Some? && OnBoard(c1) && OnBoard(c2)
    decreases |c1|
    ensures OnBoard(c1 + c2)
    ensures Filter(s, p, from, c1 + c2, acc) == Filter(s, p, from, c2, Filter(s, p, from, c1, acc))
  {
    if c1 == [] {
      assert c1 + c2 == c2;
    } else {
      var c := c1[0];
      assert c in c1;
      var acc' := if Safe(s, p, from, c.to) then acc[c.to := c.moveType] else acc;
      assert (c1 + c2)[1..] == c1[1..] + c2;
      FilterConcat(s, p, from, c1[1..], c2, acc');
    }
  }

  /** Filtering the leaps handles the first step vector, then the rest. */
  lemma FilterLeapStep(s: Position, p: Player, from: int, y: int, x: int, spaces: seq<Offset>, quiet: bool, acc: map<int, MoveType>)
    requires |s| == 64 && 0 <= from < 64 && s[from].Some? && InRange(y, x) && NonNull(spaces) && spaces != []
    ensures NonNull(spaces[1..])
    ensures var t := Index(y + spaces[0].y, x + spaces[0].x);
      Filter(s, p, from, LeapCandidates(s, p, y, x, spaces, quiet), acc) ==
      Filter(s, p, from, LeapCandidates(s, p, y, x, spaces[1..], quiet),
        if LeapTo(s, p, y, x, spaces[0], quiet, t) && Safe(s, p, from, t) then acc[t := Default] else acc)
  {
    var t := Index(y + spaces[0].y, x + spaces[0].x);
    var rest := LeapCandidates(s, p, y, x, spaces[1..], quiet);
    if LeapTo(s, p, y, x, spaces[0], quiet, t) {
      assert ([Candidate(t, Default)] + rest)[1..] == rest;
    }
  }

  /** The filter applied to the ray along `d` from `(y, x)`. */
  function RayFilter(s: Position, p: Player, from: int, y: int, x: int, d: Offset, acc: map<int, MoveType>): map<int, MoveType>
    requires |s| == 64 && 0 <= from < 64 && s[from].Some? && InRange(y, x) && Unit(d)
  {
    RaysAvoidOrigin(s, p, y, x, d);
    Filter(s, p, from, RayCandidates(s, p, y, x, d), acc)
  }

  /** Filtering a ray handles the next square `(ny, nx)` along it: off the
      board the ray ends; an empty square is offered and the ray goes on
      from it; an occupied square is offered when capturable, and the ray
      ends there. */
  lemma FilterRayEnd(s: Position, p: Player, from: int, y: int, x: int, d: Offset, acc: map<int, MoveType>)
    requires |s| == 64 && 0 <= from < 64 && s[from].Some? && InRange(y, x) && Unit(d)
    requires !InRange(y + d.y, x + d.x)
    ensures RayFilter(s, p, from, y, x, d, acc) == acc
  {
    assert RayCandidates(s, p, y, x, d) == [];
  }

  lemma FilterRayNext(s: Position, p: Player, from: int, y: int, x: int, d: Offset, ny: int, nx: int, acc: map<int, MoveType>)
    requires |s| == 64 && 0 <= from < 64 && s[from].Some? && InRange(y, x) && Unit(d)
    requires ny == y + d.y && nx == x + d.x && InRange(ny, nx)
    ensures var t := Index(ny, nx);
            var acc1 := if Open(s, t, p) && Safe(s, p, from, t) then acc[t := Default] else acc;
      RayFilter(s, p, from, y, x, d, acc) == if IsEmpty(s, t) then RayFilter(s, p, from, ny, nx, d, acc1) else acc1
  {
    if IsEmpty(s, Index(ny, nx)) {
      FilterRayEmpty(s, p, from, y, x, d, ny, nx, acc);
    } else {
      FilterRayStop(s, p, from, y, x, d, ny, nx, acc);
    }
  }

  lemma FilterRayEmpty(s: Position, p: Player, from: int, y: int, x: int, d: Offset, ny: int, nx: int, acc: map<int, MoveType>)
    requires |s| == 64 && 0 <= from < 64 && s[from].Some? && InRange(y, x) && Unit(d)
    requires ny == y + d.y && nx == x + d.x && InRange(ny, nx) && IsEmpty(s, Index(ny, nx))
    ensures var t := Index(ny, nx);
      RayFilter(s, p, from, y, x, d, acc) ==
      RayFilter(s, p, from, ny, nx, d, if Safe(s, p, from, t) then acc[t := Default] else acc)
  {
    var t := Index(ny, nx);
    var r := RayCandidates(s, p, y, x, d);
    var rest := RayCandidates(s, p, ny, nx, d);
    var acc1 := if Safe(s, p, from, t) then acc[t := Default] else acc;
    RayCandidatesPastEmpty(s, p, y, x, d, ny, nx);
    assert r[1..] == rest;
    assert Filter(s, p, from, r, acc) == Filter(s, p, from, rest, acc1);
  }

  lemma FilterRayStop(s: Position, p: Player, from: int, y: int, x: int, d: Offset, ny: int, nx: int, acc: map<int, MoveType>)
    requires |s| == 64 && 0 <= from < 64 && s[from].Some? && InRange(y, x) && Unit(d)
    requires ny == y + d.y && nx == x + d.x && InRange(ny, nx) && !IsEmpty(s, Index(ny, nx))
    ensures var t := Index(ny, nx);
      RayFilter(s, p, from, y, x, d, acc) ==
      if Open(s, t, p) && Safe(s, p, from, t) then acc[t := Default] else acc
  {
    var t := Index(ny, nx);
    var r := RayCandidates(s, p, y, x, d);
    if IsCapturable(s, t, p) {
      var acc1 := if Safe(s, p, from, t) then acc[t := Default] else acc;
      assert r == [Candidate(t, Default)];
      assert r[1..] == [];
      assert Filter(s, p, from, r, acc) == Filter(s, p, from, [], acc1);
    } else {
      assert r == [];
    }
  }

  /** Filtering a pawn's advances: the step ahead when its square is
      empty, and then, for an unmoved pawn, the second step when its square
      is empty too. */
  lemma FilterPawnAdvances(s: Position, from: int, y: int, x: int, a: Offset, t1: int, t2: int, acc: map<int, MoveType>)
    requires |s| == 64 && 0 <= from < 64 && from == Index(y, x) && InRange(y, x) && s[from].Some?
    requires a == PawnAdvance(s[from].value.player)
    requires t1 == Index(y + a.y, x + a.x) && t2 == Index(y + 2 * a.y, x + 2 * a.x)
    ensures OnBoard(PawnAdvances(s, y, x))
    ensures var p := s[from].value.player;
      Filter(s, p, from, PawnAdvances(s, y, x), acc) ==
        if InRange(y + a.y, x + a.x) && IsEmpty(s, t1) then
          var acc1 := if Safe(s, p, from, t1) then acc[t1 := Default] else acc;
          if s[from].value.moveCount == 0 && InRange(y + 2 * a.y, x + 2 * a.x) && IsEmpty(s, t2) then
            (if Safe(s, p, from, t2) then acc1[t2 := MoveTwoSpaces] else acc1)
          else acc1
        else acc
  {
    var p := s[from].value.player;
    var r := PawnAdvances(s, y, x);
    if InRange(y + a.y, x + a.x) && IsEmpty(s, t1) {
      IndexBounds(y + a.y, x + a.x);
      if s[from].value.moveCount == 0 && InRange(y + 2 * a.y, x + 2 * a.x) && IsEmpty(s, t2) {
        IndexBounds(y + 2 * a.y, x + 2 * a.x);
        assert r == [Candidate(t1, Default), Candidate(t2, MoveTwoSpaces)];
        FilterPair(s, p, from, Candidate(t1, Default), Candidate(t2, MoveTwoSpaces), acc);
      } else {
        assert r == [Candidate(t1, Default)];
        FilterSingle(s, p, from, Candidate(t1, Default), acc);
      }
    } else {
      assert r == [];
    }
  }

  /** Filtering one candidate records it when it is safe. */
  lemma FilterSingle(s: Position, p: Player, from: int, c: Candidate, acc: map<int, MoveType>)
    requires |s| == 64 && 0 <= from < 64 && s[from].Some? && 0 <= c.to < 64
    ensures Filter(s, p, from, [c], acc) == if Safe(s, p, from, c.to) then acc[c.to := c.moveType] else acc
  {
    assert [c][1..] == [];
  }

  /** Filtering two candidates records each in turn when it is safe. */
  lemma FilterPair(s: Position, p: Player, from: int, c1: Candidate, c2: Candidate, acc: map<int, MoveType>)
    requires |s| == 64 && 0 <= from < 64 && s[from].Some? && 0 <= c1.to < 64 && 0 <= c2.to < 64
    ensures var acc1 := if Safe(s, p, from, c1.to) then acc[c1.to := c1.moveType] else acc;
      Filter(s, p, from, [c1, c2], acc) == if Safe(s, p, from, c2.to) then acc1[c2.to := c2.moveType] else acc1
  {
    assert [c1, c2][1..] == [c2];
    FilterSingle(s, p, from, c2, if Safe(s, p, from, c1.to) then acc[c1.to := c1.moveType] else acc);
  }

  /** The `legalMoves` map the engine computes for the piece on `i`. */
  function LegalMoves(s: Position, i: int): map<int, MoveType>
    requires |s| == 64 && 0 <= i < 64 && s[i].Some?
  {
    CandidatesWellFormed(s, i);
    Filter(s, s[i].value.player, i, Candidates(s, i), map[])
  }

  /** A destination is recorded exactly when the movement rules allow it and
      the move does not leave the mover in check, and it is recorded with
      the move type the rules give it. */
  lemma LegalMovesIff(s: Position, i: int, t: int)
    requires |s| == 64 && 0 <= i < 64 && s[i].Some?
    ensures t in LegalMoves(s, i) <==> 0 <= t < 64 && (exists mt :: Rule(s, i, t, mt)) && Safe(s, s[i].value.player, i, t)
    ensures t in LegalMoves(s, i) ==> Rule(s, i, t, LegalMoves(s, i)[t])
    ensures forall mt :: t in LegalMoves(s, i) && Rule(s, i, t, mt) ==> LegalMoves(s, i)[t] == mt
  {
    var p := s[i].value.player;
    CandidatesWellFormed(s, i);
    var cands := Candidates(s, i);
    FilterSpec(s, p, i, cands, map[]);
    var lm := LegalMoves(s, i);
    if t in lm {
      CandidatesIff(s, i, Candidate(t, lm[t]));
      forall mt | Rule(s, i, t, mt)
        ensures lm[t] == mt
      {
        RuleFunctional(s, i, t, lm[t], mt);
      }
    }
    if 0 <= t < 64 && (exists mt :: Rule(s, i, t, mt)) && Safe(s, p, i, t) {
      var mt :| Rule(s, i, t, mt);
      CandidatesIff(s, i, Candidate(t, mt));
    }
  }

  /** Every recorded destination is on the board, is not the piece's own
      square and is empty or holds a capturable piece, so it is never a king
      and never one of the mover's own pieces; and making the move does not
      leave the mover in check. */
  lemma LegalMovesOpen(s: Position, i: int, t: int)
    requires |s| == 64 && 0 <= i < 64 && s[i].Some?
    requires t in LegalMoves(s, i)
    ensures 0 <= t < 64 && t != i && Open(s, t, s[i].value.player)
    ensures Safe(s, s[i].value.player, i, t)
  {
    var p := s[i].value.player;
    CandidatesWellFormed(s, i);
    FilterSpec(s, p, i, Candidates(s, i), map[]);
    DecodeIndex(i);
  }

  /** Pawn moves in index terms, with `a` = +1 for White (up a line) and -1
      for Black (down a line): a default step to `i + a` onto an empty
      square; a MoveTwoSpaces step to `i + 2a` for an unmoved pawn with both
      squares empty; or a default capture to a neighbouring file,
      `i - 8 + a` or `i + 8 + a`. */
  lemma PawnLegalMoves(s: Position, i: int, t: int)
    requires |s| == 64 && 0 <= i < 64 && s[i].Some? && s[i].value.name == Pawn
    requires t in LegalMoves(s, i)
    ensures var a := if s[i].value.player == White then 1 else -1;
            var mt := LegalMoves(s, i)[t];
      && 0 <= t < 64
      && (|| (mt == Default && t == i + a && IsEmpty(s, t))
          || (&& mt == MoveTwoSpaces && t == i + 2 * a && s[i].value.moveCount == 0
              && IsEmpty(s, i + a) && IsEmpty(s, t))
          || (mt == Default && (t == i - 8 + a || t == i + 8 + a) && IsCapturable(s, t, s[i].value.player)))
  {
    LegalMovesIff(s, i, t);
    DecodeIndex(i);
  }
}
