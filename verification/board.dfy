/** The 30 x 30 playing field of the Snake game: grid coordinates, the
    bounds test applied to the head after every move, and the placement of
    food from two random draws. Coordinates are 1-based: x is the column,
    y the row. */
module Board {

  /** Number of cells along each axis. */
  const Size := 30

  /** A grid cell, or a per-tick displacement (dx, dy) when used as a velocity. */
  datatype Point = Point(x: int, y: int) {

    /** Componentwise sum: the cell reached from this one by displacement `d`. */
    function Plus(d: Point): Point {
      Point(x + d.x, y + d.y)
    }
  }

  /** True iff `p` is a cell of the board. */
  predicate InGrid(p: Point) {
    1 <= p.x <= Size && 1 <= p.y <= Size
  }

  /** The wall test of the tick, written the way the game writes it: a
      coordinate at or below zero, or beyond the last column or row. */
  predicate HitsWall(p: Point) {
    p.x <= 0 || p.x > Size || p.y <= 0 || p.y > Size
  }

  /** Food placement. Each axis is `floor(random() * 30) + 1`; the floored
      products, integers in [0, 30), are the parameters `dx` and `dy`. */
  function FoodFromDraws(dx: int, dy: int): (p: Point)
    requires 0 <= dx < Size && 0 <= dy < Size
    ensures InGrid(p)
    ensures p.x - 1 == dx && p.y - 1 == dy
  {
    Point(dx + 1, dy + 1)
  }

  /** Every cell of the board can receive the food: placement is onto the grid. */
  lemma FoodCoversGrid(p: Point)
    requires InGrid(p)
    ensures exists dx, dy :: 0 <= dx < Size && 0 <= dy < Size && FoodFromDraws(dx, dy) == p
  {
    assert FoodFromDraws(p.x - 1, p.y - 1) == p;
  }
}
