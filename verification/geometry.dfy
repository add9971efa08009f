/** Screen geometry of the snake game: pixel vectors, the cell grid, the
    box-overlap test and the wall test. Positions are kept as integers; every
    value the engine writes is a whole multiple of SquareSize. */
module Geometry {

  const ScreenWidth: int := 640
  const ScreenHeight: int := 480
  const SquareSize: int := 32

  /** A position or a speed, in pixels. */
  datatype Vec = Vec(x: int, y: int)

  /** A grid cell as drawn by the random generator: column and row. */
  datatype Cell = Cell(col: int, row: int)

  function Add(a: Vec, b: Vec): Vec
  {
    Vec(a.x + b.x, a.y + b.y)
  }

  /** Both coordinates are whole multiples of the cell size. */
  predicate OnGrid(v: Vec)
  {
    v.x % 32 == 0 && v.y % 32 == 0
  }

  /** The column and row bounds the food generator draws from. */
  predicate InRange(c: Cell)
  {
    0 <= c.col <= (ScreenWidth - SquareSize) / SquareSize &&
    0 <= c.row <= (ScreenHeight - SquareSize) / SquareSize
  }

  /** Top-left pixel of a cell. */
  function CellPos(c: Cell): (p: Vec)
    ensures OnGrid(p)
    ensures InRange(c) ==> 0 <= p.x <= ScreenWidth - SquareSize && 0 <= p.y <= ScreenHeight - SquareSize
  {
    Vec(c.col * SquareSize, c.row * SquareSize)
  }

  /** Strict overlap of the two SquareSize boxes whose top-left corners are a and b. */
  predicate Overlaps(a: Vec, b: Vec)
  {
    a.x < b.x + SquareSize && a.x + SquareSize > b.x &&
    a.y < b.y + SquareSize && a.y + SquareSize > b.y
  }

  /** The box at p leaves the screen on some side. */
  predicate HitsWall(p: Vec)
  {
    p.x + SquareSize > ScreenWidth || p.x < 0 ||
    p.y + SquareSize > ScreenHeight || p.y < 0
  }

  /** A multiple of the cell size strictly between -SquareSize and SquareSize is zero. */
  lemma {:induction false} SmallMultipleIsZero(d: int)
    requires d % SquareSize == 0
    requires -SquareSize < d < SquareSize
    ensures d == 0
  {
    var q := d / SquareSize;
    assert d == q * SquareSize;
  }

  /** On the grid, the strict box-overlap test is exactly "same cell". */
  lemma {:induction false} OverlapIffSameCell(a: Vec, b: Vec)
    requires OnGrid(a) && OnGrid(b)
    ensures Overlaps(a, b) <==> a == b
  {
    if Overlaps(a, b) {
      SubtractOnGrid(a.x, b.x);
      SubtractOnGrid(a.y, b.y);
      SmallMultipleIsZero(a.x - b.x);
      SmallMultipleIsZero(a.y - b.y);
    }
  }

  lemma {:induction false} SubtractOnGrid(u: int, v: int)
    requires u % SquareSize == 0 && v % SquareSize == 0
    ensures (u - v) % SquareSize == 0
  {
    var p, q := u / SquareSize, v / SquareSize;
    assert u - v == (p - q) * SquareSize;
  }

  /** A grid position survives the wall test exactly when it is the corner of a
      cell the food generator can draw: the arena and the food grid coincide. */
  lemma {:induction false} SafeIffDrawableCell(p: Vec)
    requires OnGrid(p)
    ensures !HitsWall(p) <==> InRange(Cell(p.x / SquareSize, p.y / SquareSize))
    ensures CellPos(Cell(p.x / SquareSize, p.y / SquareSize)) == p
  {
    assert p.x == (p.x / SquareSize) * SquareSize;
    assert p.y == (p.y / SquareSize) * SquareSize;
  }
}
