/**
 * The raster shared by both pixel samplers: the bytes a 2D canvas holds for
 * each point, the `{r, g, b, a}` record handed to the text scanners, and the
 * rule that turns a real-valued loop bound into a number of iterations.
 */
module Pixels {
  /** One 8-bit channel of the canvas's RGBA data. */
  type Byte = x: int | 0 <= x < 256

  /** The four bytes `getImageData` reports for one point of the surface. */
  datatype Cell = Cell(r: Byte, g: Byte, b: Byte, alpha: Byte)

  /** What `get(i, j)` returns: colour bytes as they are, alpha scaled to a fraction. */
  datatype Pixel = Pixel(r: int, g: int, b: int, a: real)

  /** A loaded image as the samplers see it: its intrinsic size in pixels. */
  datatype Image = Image(width: nat, height: nat)

  /** What a 2D canvas reports for a point outside its bitmap. */
  const TransparentBlack := Cell(0, 0, 0, 0)

  /** The record built from one cell: `a` is the alpha byte divided by 255. */
  function ToPixel(c: Cell): (p: Pixel)
    ensures p.r == c.r && p.g == c.g && p.b == c.b
    ensures 0 <= p.r < 256 && 0 <= p.g < 256 && 0 <= p.b < 256
    ensures 0.0 <= p.a <= 1.0
    ensures p.a * 255.0 == c.alpha as real
  {
    Pixel(c.r, c.g, c.b, c.alpha as real / 255.0)
  }

  /** `cells` holds `rows` rows of `columns` cells each. */
  predicate Shaped(cells: seq<seq<Cell>>, columns: int, rows: int) {
    |cells| == rows && forall y :: 0 <= y < |cells| ==> |cells[y]| == columns
  }

  /**
   * The bitmap a surface of `columns` x `rows` holds once an image has been
   * drawn on it; `drawn(x, y)` is the colour the browser paints at column x,
   * row y (the resampling itself is the browser's).
   */
  function Rasterize(drawn: (int, int) -> Cell, columns: nat, rows: nat): (cells: seq<seq<Cell>>)
    ensures Shaped(cells, columns, rows)
    ensures forall y, x :: 0 <= y < rows && 0 <= x < columns ==> cells[y][x] == drawn(x, y)
  {
    seq(rows, y requires 0 <= y < rows => seq(columns, x requires 0 <= x < columns => drawn(x, y)))
  }

  /** Column `i`, row `j` of the surface lies inside its bitmap. */
  predicate Inside(cells: seq<seq<Cell>>, i: int, j: int) {
    0 <= j < |cells| && 0 <= i < |cells[j]|
  }

  /**
   * A one-point `getImageData(i, j, 1, 1)` turned into a pixel record: the
   * cell at column `i`, row `j`, or transparent black off the bitmap.
   */
  function Sample(cells: seq<seq<Cell>>, i: int, j: int): (p: Pixel)
    ensures Inside(cells, i, j) ==>
      p.r == cells[j][i].r && p.g == cells[j][i].g && p.b == cells[j][i].b &&
      p.a * 255.0 == cells[j][i].alpha as real
    ensures !Inside(cells, i, j) ==> p.r == p.g == p.b == 0 && p.a == 0.0
    ensures 0.0 <= p.a <= 1.0
  {
    if Inside(cells, i, j) then ToPixel(cells[j][i]) else ToPixel(TransparentBlack)
  }

  /** Row `j` as a scan over `columns` columns reads it. */
  function SampleRow(cells: seq<seq<Cell>>, columns: nat, j: int): (row: seq<Pixel>)
    ensures |row| == columns
  {
    seq(columns, i requires 0 <= i < columns => Sample(cells, i, j))
  }

  /** The whole grid a scan over `columns` x `rows` reads, row by row. */
  function SampleGrid(cells: seq<seq<Cell>>, columns: nat, rows: nat): (grid: seq<seq<Pixel>>)
    ensures |grid| == rows
    ensures forall j :: 0 <= j < rows ==> grid[j] == SampleRow(cells, columns, j)
  {
    seq(rows, j requires 0 <= j < rows => SampleRow(cells, columns, j))
  }

  /**
   * How many times a loop `for (k = 0; k < x; k++)` runs: the least natural
   * number not below `x` (so a fractional bound is rounded up).
   */
  function Count(x: real): (n: nat)
    ensures n as real >= x
    ensures n == 0 || ((n - 1) as real) < x
  {
    if x <= 0.0 then 0
    else if x.Floor as real == x then x.Floor
    else x.Floor + 1
  }

  /** The loop `k < x` keeps running exactly while `k` is below `Count(x)`. */
  lemma CountIsLoopBound(x: real, k: nat)
    ensures (k as real) < x <==> k < Count(x)
  {
  }
}
