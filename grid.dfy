/** The playing field: cells addressed by row `x` and column `y`, and the
    four directions of travel. */
module Grid {

  /** A board position; `x` is the row (0 at the top), `y` the column. */
  datatype Cell = Cell(x: int, y: int)

  datatype Direction = Left | Right | Up | Down

  /** The cell every game starts from. */
  const Spawn: Cell := Cell(1, 3)

  /** A cell lies on a `rows` by `cols` board. */
  predicate InGrid(rows: int, cols: int, c: Cell): (b: bool)
    ensures b <==> !(c.x < 0 || c.x >= rows || c.y < 0 || c.y >= cols)
    ensures b ==> rows > 0 && cols > 0
  {
    0 <= c.x < rows && 0 <= c.y < cols
  }

  /** The board is large enough to hold the spawn cell; nothing checks this at run time. */
  predicate SpawnFits(rows: int, cols: int) {
    rows >= 2 && cols >= 4
  }

  /** Two cells share a side. */
  predicate Adjacent(a: Cell, b: Cell) {
    (a.x == b.x && (a.y == b.y + 1 || b.y == a.y + 1)) ||
    (a.y == b.y && (a.x == b.x + 1 || b.x == a.x + 1))
  }

  /** The cell one step from `c` in direction `d`. */
  function Step(c: Cell, d: Direction): (r: Cell)
    ensures Adjacent(c, r)
    ensures r.y < c.y <==> d == Left
    ensures r.y > c.y <==> d == Right
    ensures r.x < c.x <==> d == Up
    ensures r.x > c.x <==> d == Down
  {
    match d
    case Left => Cell(c.x, c.y - 1)
    case Right => Cell(c.x, c.y + 1)
    case Up => Cell(c.x - 1, c.y)
    case Down => Cell(c.x + 1, c.y)
  }

  /** The spawn cell is on the board exactly when the board is at least 2 by 4. */
  lemma SpawnInGrid(rows: int, cols: int)
    ensures InGrid(rows, cols, Spawn) <==> SpawnFits(rows, cols)
  {
  }
}
