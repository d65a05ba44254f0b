/**
 * The character grid the game paints into: console colours, cells and grids as values,
 * and the two primitive painting operations (one cell, a run of text).
 * A grid is indexed [y][x], like the render buffers it abstracts.
 */
module Screen {

  /** The sixteen console colours. */
  datatype Color =
    | Black | DarkBlue | DarkGreen | DarkCyan | DarkRed | DarkMagenta | DarkYellow | Gray
    | DarkGray | Blue | Green | Cyan | Red | Magenta | Yellow | White

  /** One screen position: the character shown and its foreground colour. */
  datatype Cell = Cell(ch: char, color: Color)

  /** What an empty (cleared) position holds, and what reads outside a grid return. */
  const BlankCell: Cell := Cell(' ', Black)

  type Grid = seq<seq<Cell>>

  /** g has h rows of w cells each. */
  ghost predicate Shaped(g: Grid, w: int, h: int) {
    |g| == h && forall y :: 0 <= y < |g| ==> |g[y]| == w
  }

  /** g and r have the same number of rows and the same row lengths. */
  ghost predicate SameShape(g: Grid, r: Grid) {
    |g| == |r| && forall y :: 0 <= y < |g| ==> |g[y]| == |r[y]|
  }

  predicate InGrid(g: Grid, x: int, y: int) {
    0 <= y < |g| && 0 <= x < |g[y]|
  }

  /** The cell at (x, y), or a blank cell for a position outside the grid. */
  function CellAt(g: Grid, x: int, y: int): Cell {
    if InGrid(g, x, y) then g[y][x] else BlankCell
  }

  /** A w-by-h grid of blank cells. */
  function Blank(w: nat, h: nat): (g: Grid)
    ensures Shaped(g, w, h)
  {
    seq(h, _ => seq(w, _ => BlankCell))
  }

  /** Every cell of a blank grid, inside it or not, reads as a blank. */
  lemma BlankCells(w: nat, h: nat, x: int, y: int)
    ensures CellAt(Blank(w, h), x, y) == BlankCell
  {
  }

  /** Writes c at (x, y); a position outside the grid is silently ignored. */
  function SetCell(g: Grid, x: int, y: int, c: Cell): (r: Grid)
    ensures SameShape(g, r)
  {
    if InGrid(g, x, y) then g[y := g[y][x := c]] else g
  }

  /** SetCell changes the cell at (x, y), when it is inside the grid, and no other. */
  lemma SetCellAt(g: Grid, x: int, y: int, c: Cell, x': int, y': int)
    ensures CellAt(SetCell(g, x, y, c), x', y') == if x' == x && y' == y && InGrid(g, x, y) then c else CellAt(g, x', y')
  {
  }

  /**
   * Writes s[i] in colour col at (x + i, y) for every i, left to right, each write clipped
   * like SetCell. Defined by its last character, the order in which a left-to-right loop adds them.
   */
  function PaintText(g: Grid, x: int, y: int, s: string, col: Color): (r: Grid)
    decreases |s|
    ensures SameShape(g, r)
  {
    if |s| == 0 then g
    else SetCell(PaintText(g, x, y, s[..|s| - 1], col), x + |s| - 1, y, Cell(s[|s| - 1], col))
  }

  /** PaintText writes exactly the in-grid cells (x + i, y), i < |s|, with s[i] in colour col. */
  lemma {:induction false} PaintTextAt(g: Grid, x: int, y: int, s: string, col: Color, x': int, y': int)
    decreases |s|
    ensures CellAt(PaintText(g, x, y, s, col), x', y') ==
              if y' == y && x <= x' < x + |s| && InGrid(g, x', y') then Cell(s[x' - x], col) else CellAt(g, x', y')
  {
    if |s| > 0 {
      var init := s[..|s| - 1];
      PaintTextAt(g, x, y, init, col, x', y');
      SetCellAt(PaintText(g, x, y, init, col), x + |s| - 1, y, Cell(s[|s| - 1], col), x', y');
    }
  }

  /** Two grids of the same shape that agree on every cell are equal. */
  lemma {:induction false} GridExtensionality(a: Grid, b: Grid, w: nat, h: nat)
    requires Shaped(a, w, h) && Shaped(b, w, h)
    requires forall x, y :: 0 <= x < w && 0 <= y < h ==> CellAt(a, x, y) == CellAt(b, x, y)
    ensures a == b
  {
    forall y | 0 <= y < h
      ensures a[y] == b[y]
    {
      forall x | 0 <= x < w
        ensures a[y][x] == b[y][x]
      {
        assert CellAt(a, x, y) == CellAt(b, x, y);
      }
    }
  }
}
