/**
 * What one tick paints into the current render buffer, as grid functions in the renderer's own
 * order: the border, the status line, the ship, the enemies in list order and the bullets in
 * list order, each layer painted over the previous ones.
 */
module Frame {
  import opened Screen
  import opened Format
  import opened EnemyEntity
  import opened PlayerEntity
  import opened BulletEntity
  import opened Rules

  /** The box-drawing glyphs of the border (corners, horizontal and vertical runs), all drawn in white. */
  const TopLeft: char := '\U{250C}'
  const TopRight: char := '\U{2510}'
  const BottomLeft: char := '\U{2514}'
  const BottomRight: char := '\U{2518}'
  const Horizontal: char := '\U{2500}'
  const Vertical: char := '\U{2502}'
  const BorderColor: Color := White
  const UiColor: Color := White

  /** The cells x0 <= x < x1 of row y painted with ch, left to right. */
  function HRun(g: Grid, x0: int, x1: int, y: int, ch: char): (r: Grid)
    decreases x1 - x0
    ensures SameShape(g, r)
  {
    if x1 <= x0 then g else SetCell(HRun(g, x0, x1 - 1, y, ch), x1 - 1, y, Cell(ch, BorderColor))
  }

  lemma {:induction false} HRunAt(g: Grid, x0: int, x1: int, y: int, ch: char, x': int, y': int)
    decreases x1 - x0
    ensures CellAt(HRun(g, x0, x1, y, ch), x', y') ==
              if y' == y && x0 <= x' < x1 && InGrid(g, x', y') then Cell(ch, BorderColor) else CellAt(g, x', y')
  {
    if x0 < x1 {
      HRunAt(g, x0, x1 - 1, y, ch, x', y');
      SetCellAt(HRun(g, x0, x1 - 1, y, ch), x1 - 1, y, Cell(ch, BorderColor), x', y');
    }
  }

  /** The side glyphs at columns l and r of the rows y0 <= y < y1, top to bottom. */
  function Sides(g: Grid, l: int, r: int, y0: int, y1: int): (res: Grid)
    decreases y1 - y0
    ensures SameShape(g, res)
  {
    if y1 <= y0 then g
    else SetCell(SetCell(Sides(g, l, r, y0, y1 - 1), l, y1 - 1, Cell(Vertical, BorderColor)), r, y1 - 1, Cell(Vertical, BorderColor))
  }

  lemma {:induction false} SidesAt(g: Grid, l: int, r: int, y0: int, y1: int, x': int, y': int)
    decreases y1 - y0
    ensures CellAt(Sides(g, l, r, y0, y1), x', y') ==
              if y0 <= y' < y1 && (x' == l || x' == r) && InGrid(g, x', y') then Cell(Vertical, BorderColor) else CellAt(g, x', y')
  {
    if y0 < y1 {
      var s := Sides(g, l, r, y0, y1 - 1);
      SidesAt(g, l, r, y0, y1 - 1, x', y');
      SetCellAt(s, l, y1 - 1, Cell(Vertical, BorderColor), x', y');
      SetCellAt(SetCell(s, l, y1 - 1, Cell(Vertical, BorderColor)), r, y1 - 1, Cell(Vertical, BorderColor), x', y');
    }
  }

  /** One border row y as the renderer draws it: the left corner, the run between, the right corner. */
  function BorderRow(g: Grid, l: Layout, y: int, left: char, right: char): (r: Grid)
    ensures SameShape(g, r)
  {
    var g1 := SetCell(g, l.Left(), y, Cell(left, BorderColor));
    var g2 := HRun(g1, l.Left() + 1, l.Right(), y, Horizontal);
    SetCell(g2, l.Right(), y, Cell(right, BorderColor))
  }

  /** A border row paints the in-grid cells of row y from `Left` to `Right`; the right corner wins when the two coincide. */
  lemma BorderRowAt(g: Grid, l: Layout, y: int, left: char, right: char, x': int, y': int)
    ensures CellAt(BorderRow(g, l, y, left, right), x', y') ==
              if y' == y && InGrid(g, x', y') && (x' == l.Left() || x' == l.Right() || l.Left() < x' < l.Right())
              then Cell(if x' == l.Right() then right else if x' == l.Left() then left else Horizontal, BorderColor)
              else CellAt(g, x', y')
  {
    var g1 := SetCell(g, l.Left(), y, Cell(left, BorderColor));
    var g2 := HRun(g1, l.Left() + 1, l.Right(), y, Horizontal);
    SetCellAt(g, l.Left(), y, Cell(left, BorderColor), x', y');
    HRunAt(g1, l.Left() + 1, l.Right(), y, Horizontal, x', y');
    SetCellAt(g2, l.Right(), y, Cell(right, BorderColor), x', y');
  }

  /** The border as the renderer draws it: top row, bottom row, then the sides between them. */
  function PaintBorder(g: Grid, l: Layout): Grid {
    var top := BorderRow(g, l, l.Top(), TopLeft, TopRight);
    var bottom := BorderRow(top, l, l.Bottom(), BottomLeft, BottomRight);
    Sides(bottom, l.Left(), l.Right(), l.Top() + 1, l.Bottom())
  }

  /** The cells of the play area's outline: the four corners, the runs between them and the sides. */
  predicate OnOutline(l: Layout, x: int, y: int) {
    ((y == l.Top() || y == l.Bottom()) && (x == l.Left() || x == l.Right() || l.Left() < x < l.Right())) ||
    ((x == l.Left() || x == l.Right()) && l.Top() < y < l.Bottom())
  }

  /** The glyph the outline shows at (x, y): a corner, a horizontal run or a side. */
  function OutlineGlyph(l: Layout, x: int, y: int): char {
    if y == l.Top() then (if x == l.Left() then TopLeft else if x == l.Right() then TopRight else Horizontal)
    else if y == l.Bottom() then (if x == l.Left() then BottomLeft else if x == l.Right() then BottomRight else Horizontal)
    else Vertical
  }

  /**
   * Once the play area is at least two columns wide and two rows high, the border draws exactly
   * the outline: each in-grid outline cell gets its corner, run or side glyph in white, and every
   * other cell is left as it was.
   */
  lemma BorderIsOutline(g: Grid, l: Layout, x: int, y: int)
    requires l.Left() < l.Right() && l.Top() < l.Bottom()
    ensures SameShape(g, PaintBorder(g, l))
    ensures CellAt(PaintBorder(g, l), x, y) ==
              if OnOutline(l, x, y) && InGrid(g, x, y) then Cell(OutlineGlyph(l, x, y), BorderColor)
              else CellAt(g, x, y)
  {
    var top := BorderRow(g, l, l.Top(), TopLeft, TopRight);
    BorderRowAt(g, l, l.Top(), TopLeft, TopRight, x, y);
    BorderRowAt(top, l, l.Bottom(), BottomLeft, BottomRight, x, y);
    SidesAt(BorderRow(top, l, l.Bottom(), BottomLeft, BottomRight), l.Left(), l.Right(), l.Top() + 1, l.Bottom(), x, y);
  }

  /** Whatever the play area's size, the border changes no cell off the outline. */
  lemma BorderOnlyTouchesOutline(g: Grid, l: Layout, x: int, y: int)
    requires !OnOutline(l, x, y)
    ensures CellAt(PaintBorder(g, l), x, y) == CellAt(g, x, y)
  {
    var top := BorderRow(g, l, l.Top(), TopLeft, TopRight);
    BorderRowAt(g, l, l.Top(), TopLeft, TopRight, x, y);
    BorderRowAt(top, l, l.Bottom(), BottomLeft, BottomRight, x, y);
    SidesAt(BorderRow(top, l, l.Bottom(), BottomLeft, BottomRight), l.Left(), l.Right(), l.Top() + 1, l.Bottom(), x, y);
  }

  /** How many characters of a status line of length len fit: writing stops before column `Right`. */
  function UiLength(l: Layout, len: nat): (n: nat)
    ensures n <= len
    ensures l.Left() + 2 + n <= l.Right() || n == 0
    ensures n == len || l.Left() + 2 + n >= l.Right()
  {
    var room := l.Right() - (l.Left() + 2);
    if room <= 0 then 0 else if len < room then len else room
  }

  /** The status line, clipped, on the row below the top border from two columns right of the left border. */
  function PaintUI(g: Grid, l: Layout, ui: string): Grid {
    PaintText(g, l.Left() + 2, l.Top() + 1, ui[..UiLength(l, |ui|)], UiColor)
  }

  /**
   * The status line is drawn on row top + 1 only, from column left + 2, and never at or beyond
   * column `Right`: every other cell is unchanged. The in-grid cells it covers show the text's
   * characters in white, and it shows all of the text whenever it fits.
   */
  lemma UiIsClipped(g: Grid, l: Layout, ui: string, x: int, y: int)
    ensures var r := PaintUI(g, l, ui);
            var x0 := l.Left() + 2;
            (x >= l.Right() || y != l.Top() + 1 || x < x0 ==> CellAt(r, x, y) == CellAt(g, x, y)) &&
            (y == l.Top() + 1 && x0 <= x < l.Right() && x < x0 + |ui| && InGrid(g, x, y) ==>
               CellAt(r, x, y) == Cell(ui[x - x0], UiColor))
  {
    PaintTextAt(g, l.Left() + 2, l.Top() + 1, ui[..UiLength(l, |ui|)], UiColor, x, y);
  }

  /** The enemies painted in list order. */
  function PaintEnemies(g: Grid, es: seq<EnemyView>): (r: Grid)
    ensures SameShape(g, r)
  {
    if es == [] then g else PaintEnemy(PaintEnemies(g, es[..|es| - 1]), es[|es| - 1])
  }

  /** The bullets painted in list order. */
  function PaintBullets(g: Grid, bs: seq<BulletView>): (r: Grid)
    ensures SameShape(g, r)
  {
    if bs == [] then g else PaintBullet(PaintBullets(g, bs[..|bs| - 1]), bs[|bs| - 1])
  }

  /** The enemy covers cell (x, y) when it is alive. */
  predicate EnemyCovers(e: EnemyView, x: int, y: int) {
    e.alive && y == e.y && e.x <= x < e.x + WidthOf(e.kind)
  }

  /** Cells no live enemy covers are left as they were. */
  lemma {:induction false} EnemiesOnlyTouchTheirCells(g: Grid, es: seq<EnemyView>, x: int, y: int)
    requires forall k :: 0 <= k < |es| ==> !EnemyCovers(es[k], x, y)
    ensures CellAt(PaintEnemies(g, es), x, y) == CellAt(g, x, y)
  {
    if es != [] {
      EnemiesOnlyTouchTheirCells(g, es[..|es| - 1], x, y);
      EnemyPaintCells(PaintEnemies(g, es[..|es| - 1]), es[|es| - 1], x, y);
    }
  }

  /** Cells no active bullet is on are left as they were. */
  lemma {:induction false} BulletsOnlyTouchTheirCells(g: Grid, bs: seq<BulletView>, x: int, y: int)
    requires forall k :: 0 <= k < |bs| ==> !(bs[k].active && bs[k].x == x && bs[k].y == y)
    ensures CellAt(PaintBullets(g, bs), x, y) == CellAt(g, x, y)
  {
    if bs != [] {
      BulletsOnlyTouchTheirCells(g, bs[..|bs| - 1], x, y);
      BulletPaintCells(PaintBullets(g, bs[..|bs| - 1]), bs[|bs| - 1], x, y);
    }
  }

  /** Bullets are drawn over everything: an in-grid cell shows the glyph of the last active bullet on it. */
  lemma {:induction false} LastBulletShows(g: Grid, bs: seq<BulletView>, k: nat)
    requires k < |bs| && bs[k].active && InGrid(g, bs[k].x, bs[k].y)
    requires forall j :: k < j < |bs| ==> !(bs[j].active && bs[j].x == bs[k].x && bs[j].y == bs[k].y)
    ensures CellAt(PaintBullets(g, bs), bs[k].x, bs[k].y) == Cell(SymbolFor(bs[k].isPlayer), BulletColor)
  {
    var b := bs[k];
    var prefix := bs[..|bs| - 1];
    BulletPaintCells(PaintBullets(g, prefix), bs[|bs| - 1], b.x, b.y);
    if k < |bs| - 1 {
      LastBulletShows(g, prefix, k);
    }
  }

  /** The status line: the score, the whole seconds since the start and the shots in flight out of the cap. */
  function StatusText(v: GameView, now: int): string {
    StatusLine(v.score, ElapsedSeconds(now, v.startTime), v.player.shots, MaxBullets)
  }

  /** The grid painted before the enemies: blank, border, the status line `status`, ship. */
  function Backdrop(v: GameView, l: Layout, status: string): Grid {
    var g0 := PaintBorder(Blank(l.width, l.height), l);
    var g1 := PaintUI(g0, l, status);
    SetCell(g1, v.player.x, v.player.y, Cell(PlayerSymbol, PlayerColor))
  }

  /** The frame a tick renders for the state v at time `now`. */
  function FrameOf(v: GameView, l: Layout, now: int): (r: Grid)
    ensures Shaped(r, l.width, l.height)
  {
    PaintBullets(PaintEnemies(Backdrop(v, l, StatusText(v, now)), v.enemies), v.bullets)
  }

  /**
   * Nothing else is drawn: a cell that is not on the outline, not on the status row, not the
   * ship's, not covered by a live enemy and not holding an active bullet is blank in the frame.
   */
  lemma FrameBlankElsewhere(v: GameView, l: Layout, now: int, x: int, y: int)
    requires !OnOutline(l, x, y) && y != l.Top() + 1 && !(x == v.player.x && y == v.player.y)
    requires forall k :: 0 <= k < |v.enemies| ==> !EnemyCovers(v.enemies[k], x, y)
    requires forall k :: 0 <= k < |v.bullets| ==> !(v.bullets[k].active && v.bullets[k].x == x && v.bullets[k].y == y)
    ensures CellAt(FrameOf(v, l, now), x, y) == BlankCell
  {
    var ui := StatusText(v, now);
    var b := Backdrop(v, l, ui);
    var g0 := PaintBorder(Blank(l.width, l.height), l);
    BlankCells(l.width, l.height, x, y);
    BorderOnlyTouchesOutline(Blank(l.width, l.height), l, x, y);
    UiIsClipped(g0, l, ui, x, y);
    SetCellAt(PaintUI(g0, l, ui), v.player.x, v.player.y, Cell(PlayerSymbol, PlayerColor), x, y);
    EnemiesOnlyTouchTheirCells(b, v.enemies, x, y);
    BulletsOnlyTouchTheirCells(PaintEnemies(b, v.enemies), v.bullets, x, y);
  }

  /** The ship shows at its cell unless an enemy or an active bullet is drawn over it. */
  lemma ShipShows(v: GameView, l: Layout, now: int)
    requires 0 <= v.player.x < l.width && 0 <= v.player.y < l.height
    requires forall k :: 0 <= k < |v.enemies| ==> !EnemyCovers(v.enemies[k], v.player.x, v.player.y)
    requires forall k :: 0 <= k < |v.bullets| ==> !(v.bullets[k].active && v.bullets[k].x == v.player.x && v.bullets[k].y == v.player.y)
    ensures CellAt(FrameOf(v, l, now), v.player.x, v.player.y) == Cell(PlayerSymbol, PlayerColor)
  {
    var ui := StatusText(v, now);
    var b := Backdrop(v, l, ui);
    var g1 := PaintUI(PaintBorder(Blank(l.width, l.height), l), l, ui);
    SetCellAt(g1, v.player.x, v.player.y, Cell(PlayerSymbol, PlayerColor), v.player.x, v.player.y);
    EnemiesOnlyTouchTheirCells(b, v.enemies, v.player.x, v.player.y);
    BulletsOnlyTouchTheirCells(PaintEnemies(b, v.enemies), v.bullets, v.player.x, v.player.y);
  }
}
