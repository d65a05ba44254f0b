/**
 * The render buffer: a width-by-height grid of characters and colours held in two
 * two-dimensional arrays indexed [y, x]. Writes outside the grid are dropped and reads outside
 * it return a blank cell. The ghost field `grid` is the buffer's abstract content.
 */
module RenderBuffer {
  import opened Screen

  class RenderState {
    const width: nat
    const height: nat
    const chars: array2<char>
    const colors: array2<Color>
    ghost var grid: Grid

    /** The arrays have the buffer's dimensions. */
    ghost predicate Sized()
    {
      chars.Length0 == height && chars.Length1 == width &&
      colors.Length0 == height && colors.Length1 == width
    }

    /** The arrays hold exactly the cells of `grid`. */
    ghost predicate Valid()
      reads this, chars, colors
    {
      Sized() && Shaped(grid, width, height) &&
      forall y, x :: 0 <= y < height && 0 <= x < width ==>
        chars[y, x] == grid[y][x].ch && colors[y, x] == grid[y][x].color
    }

    /** A new buffer of the given size; every cell is a blank in black. */
    constructor (width: nat, height: nat)
      ensures Valid() && fresh(chars) && fresh(colors)
      ensures this.width == width && this.height == height
      ensures grid == Blank(width, height)
    {
      this.width := width;
      this.height := height;
      chars := new char[height, width];
      colors := new Color[height, width];
      new;
      Clear();
    }

    /** Writes (c, col) at (x, y) when that position is inside the buffer; otherwise changes nothing. */
    method SetPixel(x: int, y: int, c: char, col: Color)
      requires Valid()
      modifies this, chars, colors
      ensures Valid()
      ensures grid == SetCell(old(grid), x, y, Cell(c, col))
      ensures 0 <= x < width && 0 <= y < height ==> GetChar(x, y) == c && GetColor(x, y) == col
    {
      if x >= 0 && x < width && y >= 0 && y < height {
        chars[y, x] := c;
        colors[y, x] := col;
        grid := SetCell(grid, x, y, Cell(c, col));
      }
    }

    /** The character at (x, y), or a space outside the buffer. */
    function GetChar(x: int, y: int): (c: char)
      reads this, chars, colors
      requires Valid()
      ensures c == CellAt(grid, x, y).ch
    {
      if x >= 0 && x < width && y >= 0 && y < height then chars[y, x] else ' '
    }

    /** The colour at (x, y), or black outside the buffer. */
    function GetColor(x: int, y: int): (col: Color)
      reads this, chars, colors
      requires Valid()
      ensures col == CellAt(grid, x, y).color
    {
      if x >= 0 && x < width && y >= 0 && y < height then colors[y, x] else Black
    }

    /** Resets every cell to a blank in black; the dimensions stay as they are. */
    method Clear()
      requires Sized()
      modifies this, chars, colors
      ensures Valid()
      ensures grid == Blank(width, height)
    {
      var y := 0;
      while y < height
        invariant 0 <= y <= height
        invariant forall y', x' :: 0 <= y' < y && 0 <= x' < width ==> chars[y', x'] == ' ' && colors[y', x'] == Black
      {
        var x := 0;
        while x < width
          invariant 0 <= x <= width
          invariant forall y', x' :: 0 <= y' < y && 0 <= x' < width ==> chars[y', x'] == ' ' && colors[y', x'] == Black
          invariant forall x' :: 0 <= x' < x ==> chars[y, x'] == ' ' && colors[y, x'] == Black
        {
          chars[y, x] := ' ';
          colors[y, x] := Black;
          x := x + 1;
        }
        y := y + 1;
      }
      grid := Blank(width, height);
    }
  }
}
