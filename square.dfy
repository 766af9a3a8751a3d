/**
 * The bounded board cursor of the chess engine.
 *
 * Coordinates follow the engine's convention: `y` is the file (column) and
 * `x` is the line (rank); the packed array index of `(y, x)` is `8 * y + x`.
 * A cursor remembers the square it was created on (its origin) and can be
 * stepped by an offset, refusing any step that would leave the 8x8 grid.
 */
module Squares {

  const MIN: int := 0
  const MAX: int := 7

  /** A step vector: `y` is added to the file, `x` to the line. */
  datatype Offset = Offset(y: int, x: int)

  predicate InRange(y: int, x: int)
  {
    MIN <= y <= MAX && MIN <= x <= MAX
  }

  /** The packed index of a coordinate. */
  function Index(y: int, x: int): int
  {
    8 * y + x
  }

  /** How many more steps along `d` from `(y, x)` can stay on the board,
      counted per axis; it shrinks with every step that stays on the board. */
  function EdgeDistance(y: int, x: int, d: Offset): int
  {
    (if d.y > 0 then MAX - y else if d.y < 0 then y - MIN else 0) +
    (if d.x > 0 then MAX - x else if d.x < 0 then x - MIN else 0)
  }

  /** The coordinate `c + m * delta` for a unit step `delta` in {-1, 0, 1}. */
  function Along(c: int, delta: int, m: int): int
  {
    if delta > 0 then c + m else if delta < 0 then c - m else c
  }

  /** A unit step that stays on the board brings the edge closer. */
  lemma StepCloser(y: int, x: int, d: Offset, ny: int, nx: int)
    requires -1 <= d.y <= 1 && -1 <= d.x <= 1 && (d.y != 0 || d.x != 0)
    requires ny == y + d.y && nx == x + d.x && InRange(y, x) && InRange(ny, nx)
    ensures 0 <= EdgeDistance(ny, nx, d) < EdgeDistance(y, x, d)
  {
  }

  /** An in-range coordinate packs into [0, 63], and the engine's decoding
      `(index / 8, index % 8)` gives the coordinate back. */
  lemma IndexBounds(y: int, x: int)
    requires InRange(y, x)
    ensures 0 <= Index(y, x) < 64
    ensures Index(y, x) / 8 == y && Index(y, x) % 8 == x
  {
  }

  /** Packing is injective on the board. */
  lemma IndexInjective(y1: int, x1: int, y2: int, x2: int)
    requires InRange(y1, x1) && InRange(y2, x2)
    ensures Index(y1, x1) == Index(y2, x2) <==> y1 == y2 && x1 == x2
  {
    IndexBounds(y1, x1);
    IndexBounds(y2, x2);
  }

  /** Decoding an index of the board and packing it again is the identity. */
  lemma DecodeIndex(i: int)
    requires 0 <= i < 64
    ensures InRange(i / 8, i % 8)
    ensures Index(i / 8, i % 8) == i
  {
  }

  /** A cursor with a fixed origin `(y0, x0)` and a current square `(y, x)`. */
  class Square {
    const y0: int
    const x0: int
    var y: int
    var x: int

    /** The cursor stays on the board once it starts there. */
    ghost predicate Valid()
      reads this
    {
      InRange(y0, x0) && InRange(y, x)
    }

    constructor (y: int, x: int)
      ensures y0 == y && x0 == x
      ensures this.y == y && this.x == x
      ensures InRange(y, x) ==> Valid()
    {
      y0, x0 := y, x;
      this.y, this.x := y, x;
    }

    /** The packed index of the current square; on the board it lies in
        [0, 63] (and decodes back to it, see `IndexBounds`). */
    function GetIndex(): (i: int)
      reads this
      ensures i == Index(y, x)
      ensures InRange(y, x) ==> 0 <= i < 64
    {
      Index(y, x)
    }

    /** Steps by `space` when the target is on the board; reports whether
        it stepped and leaves the cursor where it was otherwise. */
    method MoveOneSpace(space: Offset) returns (moved: bool)
      modifies this
      ensures moved <==> InRange(old(y) + space.y, old(x) + space.x)
      ensures moved ==> y == old(y) + space.y && x == old(x) + space.x
      ensures !moved ==> y == old(y) && x == old(x)
      ensures old(Valid()) ==> Valid()
    {
      if y + space.y < MIN || y + space.y > MAX || x + space.x < MIN || x + space.x > MAX {
        moved := false;
      } else {
        y := y + space.y;
        x := x + space.x;
        moved := true;
      }
    }

    /** Returns the cursor to its origin, whatever its current square. */
    method GoBackOrigin()
      modifies this
      ensures y == y0 && x == x0
      ensures InRange(y0, x0) ==> Valid()
    {
      x := x0;
      y := y0;
    }
  }
}
