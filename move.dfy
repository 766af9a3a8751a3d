/**
 * A from/to pair of cursors: `from` is fixed at the square the pair was
 * created on, `to` is walked one offset at a time and can be set directly
 * or sent back to `from`.
 */
module Moves {
  import opened Squares

  class Move {
    const from: Square
    const to: Square

    /** The two ends are distinct objects, so stepping `to` never moves `from`. */
    predicate Valid()
    {
      from != to
    }

    constructor (y: int, x: int)
      ensures Valid() && fresh(from) && fresh(to)
      ensures from.y == y && from.x == x && from.y0 == y && from.x0 == x
      ensures to.y == y && to.x == x && to.y0 == y && to.x0 == x
    {
      from := new Square(y, x);
      to := new Square(y, x);
    }

    /** Puts `to` on exactly `(y, x)`; `from` is untouched. */
    method SetTo(y: int, x: int)
      requires Valid()
      modifies to
      ensures to.y == y && to.x == x
      ensures from.y == old(from.y) && from.x == old(from.x)
    {
      to.y := y;
      to.x := x;
    }

    /** Steps `to` by `space` only when the result stays on the board and
        reports whether it stepped; `from` is never changed. */
    method MoveOneSpace(space: Offset) returns (moved: bool)
      requires Valid()
      modifies to
      ensures moved <==> InRange(old(to.y) + space.y, old(to.x) + space.x)
      ensures moved ==> to.y == old(to.y) + space.y && to.x == old(to.x) + space.x
      ensures !moved ==> to.y == old(to.y) && to.x == old(to.x)
      ensures InRange(old(to.y), old(to.x)) ==> InRange(to.y, to.x)
      ensures from.y == old(from.y) && from.x == old(from.x)
    {
      if to.y + space.y < MIN || to.y + space.y > MAX || to.x + space.x < MIN || to.x + space.x > MAX {
        moved := false;
      } else {
        to.y := to.y + space.y;
        to.x := to.x + space.x;
        moved := true;
      }
    }

    /** Brings `to` back onto the coordinates of `from`. */
    method GoToOrigin()
      requires Valid()
      modifies to
      ensures to.y == from.y && to.x == from.x
      ensures from.y == old(from.y) && from.x == old(from.x)
    {
      to.x := from.x;
      to.y := from.y;
    }
  }
}
