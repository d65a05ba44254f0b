/**
 * Bullets: a position, an owner fixed at creation (player or enemy) that fixes the direction of
 * travel, and an activity flag; one row of travel per update, and the two hit tests.
 */
module BulletEntity {
  import opened Screen
  import opened RenderBuffer
  import opened EnemyEntity
  import opened PlayerEntity

  const BulletColor: Color := White

  /** The abstract value of a bullet. */
  datatype BulletView = BulletView(x: int, y: int, isPlayer: bool, active: bool)

  /** Player bullets are drawn '^', enemy bullets 'v'. */
  function SymbolFor(isPlayer: bool): (c: char)
    ensures c != ' '
    ensures c == '^' || c == 'v'
    ensures c == '^' <==> isPlayer
  {
    if isPlayer then '^' else 'v'
  }

  /** One update: a player bullet rises one row, an enemy bullet falls one row. */
  function Advanced(b: BulletView): BulletView {
    if b.isPlayer then b.(y := b.y - 1) else b.(y := b.y + 1)
  }

  /** The bullet after n updates. */
  function Flown(b: BulletView, n: nat): BulletView {
    if n == 0 then b else Advanced(Flown(b, n - 1))
  }

  /** The hit test against an enemy: an active player bullet on one of a live enemy's columns of its row. */
  predicate HitsEnemy(b: BulletView, e: EnemyView) {
    b.active && e.alive && b.isPlayer && b.y == e.y && e.x <= b.x < e.x + WidthOf(e.kind)
  }

  /** The hit test against the player: an active enemy bullet on the player's cell. */
  predicate HitsPlayer(b: BulletView, p: PlayerView) {
    b.active && !b.isPlayer && b.x == p.x && b.y == p.y
  }

  /** What rendering a bullet paints: its glyph at its cell when active, nothing otherwise. */
  function PaintBullet(g: Grid, b: BulletView): Grid {
    if b.active then SetCell(g, b.x, b.y, Cell(SymbolFor(b.isPlayer), BulletColor)) else g
  }

  /** An update moves along the owner's direction only: the column, owner and activity stay. */
  lemma AdvanceDirection(b: BulletView)
    ensures Advanced(b).x == b.x && Advanced(b).isPlayer == b.isPlayer && Advanced(b).active == b.active
    ensures Advanced(b).y == if b.isPlayer then b.y - 1 else b.y + 1
  {
  }

  /** After n updates a bullet is n rows further along its direction, in the same column. */
  lemma {:induction false} FlightIsStraight(b: BulletView, n: nat)
    ensures Flown(b, n) == b.(y := if b.isPlayer then b.y - n else b.y + n)
  {
    if n > 0 {
      FlightIsStraight(b, n - 1);
    }
  }

  /**
   * An enemy bullet fired in the player's column d rows above it hits the player on the d-th
   * update and on no earlier one.
   */
  lemma EnemyBulletReachesPlayer(b: BulletView, p: PlayerView, d: nat)
    requires !b.isPlayer && b.active && b.x == p.x && b.y + d == p.y
    ensures HitsPlayer(Flown(b, d), p)
    ensures forall n :: 0 <= n < d ==> !HitsPlayer(Flown(b, n), p)
  {
    FlightIsStraight(b, d);
    forall n | 0 <= n < d
      ensures !HitsPlayer(Flown(b, n), p)
    {
      FlightIsStraight(b, n);
    }
  }

  /** A bullet never tests as hitting its own side. */
  lemma NeverHitsOwnSide(b: BulletView, e: EnemyView, p: PlayerView)
    ensures HitsEnemy(b, e) ==> b.isPlayer
    ensures HitsPlayer(b, p) ==> !b.isPlayer
    ensures !(HitsEnemy(b, e) && HitsPlayer(b, p))
  {
  }

  /** Rendering an inactive bullet changes nothing; an active one writes exactly its own cell. */
  lemma BulletPaintCells(g: Grid, b: BulletView, x: int, y: int)
    ensures !b.active ==> PaintBullet(g, b) == g
    ensures CellAt(PaintBullet(g, b), x, y) ==
              if b.active && x == b.x && y == b.y && InGrid(g, x, y)
              then Cell(SymbolFor(b.isPlayer), BulletColor)
              else CellAt(g, x, y)
  {
  }

  class Bullet {
    var x: int
    var y: int
    const isPlayerBullet: bool
    var isActive: bool

    function View(): BulletView
      reads this
    {
      BulletView(x, y, isPlayerBullet, isActive)
    }

    /** A new, active bullet at (x, y) owned by the player or by an enemy. */
    constructor (x: int, y: int, isPlayerBullet: bool)
      ensures View() == BulletView(x, y, isPlayerBullet, true)
    {
      this.x := x;
      this.y := y;
      this.isPlayerBullet := isPlayerBullet;
      isActive := true;
    }

    /** The glyph tells the owner apart: '^' for the player's bullets and 'v' for the enemies'. */
    function Symbol(): (c: char)
      ensures c == '^' <==> isPlayerBullet
      ensures c == 'v' <==> !isPlayerBullet
    {
      SymbolFor(isPlayerBullet)
    }

    method Update()
      modifies this
      ensures View() == Advanced(old(View()))
    {
      if isPlayerBullet {
        y := y - 1;
      } else {
        y := y + 1;
      }
    }

    method Render(rs: RenderState)
      requires rs.Valid()
      modifies rs, rs.chars, rs.colors
      ensures rs.Valid()
      ensures rs.grid == PaintBullet(old(rs.grid), View())
    {
      if isActive {
        rs.SetPixel(x, y, Symbol(), BulletColor);
      }
    }

    /**
     * The hit test against an enemy, column by column over the enemy's width: true exactly when
     * the bullet is an active player bullet on the live enemy's row within [enemy.x, enemy.x + width).
     */
    method CheckCollisionEnemy(enemy: Enemy) returns (hit: bool)
      ensures hit <==> isActive && enemy.alive && isPlayerBullet && y == enemy.y &&
                       enemy.x <= x < enemy.x + enemy.Width()
      ensures hit == HitsEnemy(View(), enemy.View())
    {
      if !isActive || !enemy.alive || !isPlayerBullet {
        return false;
      }
      var i := 0;
      while i < enemy.Width()
        invariant 0 <= i <= enemy.Width()
        invariant !(y == enemy.y && enemy.x <= x < enemy.x + i)
      {
        if x == enemy.x + i && y == enemy.y {
          return true;
        }
        i := i + 1;
      }
      return false;
    }

    /** The hit test against the ship, with the source's early return for inactive and player bullets. */
    predicate CheckCollisionPlayer(player: Player)
      reads this, player
      ensures CheckCollisionPlayer(player) <==> HitsPlayer(View(), player.View())
    {
      if !isActive || isPlayerBullet then false else x == player.x && y == player.y
    }
  }
}
