/**
 * Enemies: the six formation slots, the glyph and colour each slot is drawn with, and the
 * mutable enemy record (position, liveness) with its move and render operations.
 */
module EnemyEntity {
  import opened Screen
  import opened RenderBuffer

  datatype EnemyType = TopRow1 | TopRow2 | TopRow3 | TopRow4 | TopRow5 | BottomRow

  /** The glyph an enemy of type t is drawn with. */
  function SymbolOf(t: EnemyType): (s: string)
    ensures forall i :: 0 <= i < |s| ==> s[i] != ' '
    ensures |s| == if t == BottomRow then 3 else 2
  {
    match t
    case TopRow1 | TopRow3 | TopRow5 => "><"
    case TopRow2 | TopRow4 => "oo"
    case BottomRow => "/O\\"
  }

  /** The colour an enemy of type t is drawn in. */
  function ColorOf(t: EnemyType): (c: Color)
    ensures c == Red || c == DarkYellow
    ensures (c == DarkYellow) == (t == BottomRow)
  {
    match t
    case TopRow1 | TopRow3 | TopRow5 => Red
    case TopRow2 | TopRow4 => Red
    case BottomRow => DarkYellow
  }

  /** The number of columns an enemy occupies: the length of its glyph. */
  function WidthOf(t: EnemyType): (w: nat)
    ensures w == |SymbolOf(t)|
    ensures w == if t == BottomRow then 3 else 2
  {
    |SymbolOf(t)|
  }

  /** The abstract value of an enemy. */
  datatype EnemyView = EnemyView(x: int, y: int, kind: EnemyType, alive: bool)

  /** The enemy displaced by (dx, dy); its type and liveness are untouched. */
  function Moved(e: EnemyView, dx: int, dy: int): EnemyView {
    e.(x := e.x + dx, y := e.y + dy)
  }

  /** What rendering an enemy paints: nothing for a dead enemy, its glyph from (x, y) rightwards otherwise. */
  function PaintEnemy(g: Grid, e: EnemyView): Grid {
    if e.alive then PaintText(g, e.x, e.y, SymbolOf(e.kind), ColorOf(e.kind)) else g
  }

  /**
   * Rendering a dead enemy changes nothing; rendering a live one writes exactly the in-grid
   * cells (x + i, y), i < width, with the glyph's i-th character in the type's colour.
   */
  lemma EnemyPaintCells(g: Grid, e: EnemyView, x: int, y: int)
    ensures !e.alive ==> PaintEnemy(g, e) == g
    ensures CellAt(PaintEnemy(g, e), x, y) ==
              if e.alive && y == e.y && e.x <= x < e.x + WidthOf(e.kind) && InGrid(g, x, y)
              then Cell(SymbolOf(e.kind)[x - e.x], ColorOf(e.kind))
              else CellAt(g, x, y)
  {
    if e.alive {
      PaintTextAt(g, e.x, e.y, SymbolOf(e.kind), ColorOf(e.kind), x, y);
    }
  }

  class Enemy {
    var x: int
    var y: int
    const kind: EnemyType
    var alive: bool

    function View(): EnemyView
      reads this
    {
      EnemyView(x, y, kind, alive)
    }

    /** A new enemy of the given type at (x, y); it starts alive. */
    constructor (x: int, y: int, kind: EnemyType)
      ensures View() == EnemyView(x, y, kind, true)
    {
      this.x := x;
      this.y := y;
      this.kind := kind;
      alive := true;
    }

    function Symbol(): string {
      SymbolOf(kind)
    }

    function Width(): nat {
      |Symbol()|
    }

    method Move(dx: int, dy: int)
      modifies this
      ensures View() == Moved(old(View()), dx, dy)
    {
      x := x + dx;
      y := y + dy;
    }

    method Render(rs: RenderState)
      requires rs.Valid()
      modifies rs, rs.chars, rs.colors
      ensures rs.Valid()
      ensures rs.grid == PaintEnemy(old(rs.grid), View())
    {
      if !alive {
        return;
      }
      var s := Symbol();
      var i := 0;
      while i < |s|
        invariant 0 <= i <= |s|
        invariant rs.Valid()
        invariant rs.grid == PaintText(old(rs.grid), x, y, s[..i], ColorOf(kind))
      {
        assert s[..i + 1][..i] == s[..i];
        rs.SetPixel(x + i, y, s[i], ColorOf(kind));
        i := i + 1;
      }
      assert s[..i] == s;
    }
  }
}
