/** The game's entities as values: balls, bricks, power-ups, and the grid
    cells that bricks and power-ups occupy. */
module Entities {
  import opened Config

  /** A ball; its radius is always `BallRadius`. `active` turns false once
      the ball reaches the floor. */
  datatype Ball = Ball(x: real, y: real, vx: real, vy: real, active: bool)

  /** A brick: top-left corner, size, health and the palette index of its
      colour. */
  datatype Brick = Brick(x: real, y: real, width: real, height: real,
                         health: int, maxHealth: int, color: int, destroyed: bool)

  /** A ball-count power-up, positioned by its centre. */
  datatype PowerUp = PowerUp(x: real, y: real, size: real, collected: bool)

  /** A position on the canvas. */
  datatype Point = Point(x: real, y: real)

  /** An axis-aligned rectangle given by its top-left corner and size. */
  datatype Rect = Rect(x: real, y: real, width: real, height: real)

  /** A (row, column) grid position. */
  datatype Cell = Cell(row: int, col: int)

  function BrickRect(b: Brick): Rect {
    Rect(b.x, b.y, b.width, b.height)
  }

  /** Left edge of the bricks in grid column `col`. */
  function ColumnX(col: int): real {
    OffsetLeft + col as real * ColPitch
  }

  /** Top edge of the bricks in grid row `row`. */
  function RowY(row: int): real {
    OffsetTop + row as real * RowPitch
  }

  /** The grid cell the source recovers from a position by rounding
      `(x - OffsetLeft) / ColPitch` and `(y - OffsetTop) / RowPitch`. */
  function CellAt(x: real, y: real): Cell {
    Cell(JsRound((y - OffsetTop) / RowPitch), JsRound((x - OffsetLeft) / ColPitch))
  }

  function BrickCell(b: Brick): Cell { CellAt(b.x, b.y) }

  function PowerUpCell(p: PowerUp): Cell { CellAt(p.x, p.y) }

  predicate InGrid(c: Cell) { 0 <= c.row < BrickRows && 0 <= c.col < BrickCols }

  lemma RoundsTo(k: int, f: real)
    requires -0.5 <= f < 0.5
    ensures JsRound(k as real + f) == k
  {
  }

  /** A point that lies less than half a pitch right of and below a cell's
      corner is mapped back to that cell: the grid coordinates of bricks
      (offset 0) and of power-up centres (offset half a brick) are
      recovered exactly. */
  lemma {:induction false} CellAtOffset(c: Cell, dx: real, dy: real)
    requires 0.0 <= dx < ColPitch / 2.0 && 0.0 <= dy < RowPitch / 2.0
    ensures CellAt(ColumnX(c.col) + dx, RowY(c.row) + dy) == c
  {
    assert (ColumnX(c.col) + dx - OffsetLeft) / ColPitch == c.col as real + dx / ColPitch;
    assert (RowY(c.row) + dy - OffsetTop) / RowPitch == c.row as real + dy / RowPitch;
    RoundsTo(c.col, dx / ColPitch);
    RoundsTo(c.row, dy / RowPitch);
  }
}
