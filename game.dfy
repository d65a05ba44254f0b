/**
 * The game manager: it owns the ship, the enemy and bullet lists, the score, the formation's
 * direction, the timers and two render buffers, and runs the main loop (input, simulation
 * step, rendering). Each method is proved to carry out the corresponding rule on the
 * abstract state (`Models`), so the properties proved about the rules hold of the manager.
 */
module Game {
  import opened Options
  import opened Screen
  import opened Terminal
  import opened Format
  import opened Lists
  import opened RenderBuffer
  import opened EnemyEntity
  import opened PlayerEntity
  import opened BulletEntity
  import opened Rules
  import opened Frame
  import opened GameLoop

  /** The enemy objects have the given abstract values, one for one and in order. */
  ghost predicate EnemiesAre(es: seq<Enemy>, vs: seq<EnemyView>)
    reads es
  {
    |es| == |vs| && forall k :: 0 <= k < |es| ==> es[k].View() == vs[k]
  }

  /** The bullet objects have the given abstract values, one for one and in order. */
  ghost predicate BulletsAre(bs: seq<Bullet>, vs: seq<BulletView>)
    reads bs
  {
    |bs| == |vs| && forall k :: 0 <= k < |bs| ==> bs[k].View() == vs[k]
  }

  /** Dropping the bullets that are to go keeps the values of the others, in order. */
  lemma {:induction false} ExcludingKeepsViews(bs: seq<Bullet>, gone: seq<Bullet>, vs: seq<BulletView>, removed: seq<bool>)
    requires BulletsAre(bs, vs) && |removed| == |bs|
    requires forall k :: 0 <= k < |bs| ==> (bs[k] in gone <==> removed[k])
    ensures BulletsAre(Excluding(bs, gone), Kept(vs, removed))
  {
    if bs != [] {
      var n := |bs| - 1;
      ExcludingKeepsViews(bs[..n], gone, vs[..n], removed[..n]);
    }
  }

  /**
   * The list of bullets to remove follows the pass: after bullet i's turn, which can only mark
   * bullet i, it has gained bullet i exactly when that turn marked it.
   */
  lemma PickedAfterTurn(bs: seq<Bullet>, before: seq<bool>, after: seq<bool>, i: nat, gone: seq<Bullet>, remove: bool)
    requires i < |bs| == |before| && !before[i]
    requires gone == Picked(bs[..i], before[..i])
    requires after == if remove then before[i := true] else before
    ensures (if remove then gone + [bs[i]] else gone) == Picked(bs[..i + 1], after[..i + 1])
  {
    assert after[..i] == before[..i] && after[i] == remove;
    PickedStep(bs, after, i);
  }

  /** Once the turns stop, at the end of the list or at a hit, the pass is complete and the bullets collected are its removals. */
  lemma PassComplete(g: GameView, l: Layout, i: nat, bs: seq<Bullet>, hit: bool, gone: seq<Bullet>)
    requires i <= |bs| == |g.bullets| && hit == PassUpTo(g, l, i).playerHit && (i == |bs| || hit)
    requires gone == Picked(bs[..i], PassUpTo(g, l, i).removed[..i])
    ensures PassUpTo(g, l, i) == BulletPass(g, l)
    ensures !hit ==> gone == Picked(bs, BulletPass(g, l).removed)
  {
    if hit {
      PassStopsAtHit(g, l, i, |bs|);
    } else {
      assert bs[..i] == bs && PassUpTo(g, l, i).removed[..i] == PassUpTo(g, l, i).removed;
    }
  }

  /** Creates the ship and the eight enemies of a new game. */
  method SpawnFormation(l: Layout) returns (p: Player, es: seq<Enemy>)
    ensures fresh(p) && p.View() == InitialPlayer(l)
    ensures EnemiesAre(es, InitialEnemies(l)) && Distinct(es)
    ensures forall k :: 0 <= k < |es| ==> fresh(es[k])
  {
    p := new Player(TruncDiv(l.Left() + l.Right(), 2), l.Bottom() - 2);
    var top := SpawnTopRow(l);
    es := SpawnBottomRow(l, top);
  }

  /** The five top-row enemies, six columns apart from column left + 5. */
  method SpawnTopRow(l: Layout) returns (es: seq<Enemy>)
    ensures EnemiesAre(es, InitialEnemies(l)[..5]) && Distinct(es)
    ensures forall k :: 0 <= k < |es| ==> fresh(es[k])
  {
    es := [];
    var startX := l.Left() + 5;
    var spacing := 6;
    for i := 0 to 5
      invariant EnemiesAre(es, InitialEnemies(l)[..i]) && Distinct(es)
      invariant forall k :: 0 <= k < |es| ==> fresh(es[k])
    {
      var e := new Enemy(startX + i * spacing, l.Top() + 2, TopRowType(i));
      assert InitialEnemies(l)[..i + 1] == InitialEnemies(l)[..i] + [e.View()];
      es := es + [e];
    }
  }

  /** The three bottom-row enemies, eight columns apart from column left + 8, after the top row. */
  method SpawnBottomRow(l: Layout, top: seq<Enemy>) returns (es: seq<Enemy>)
    requires EnemiesAre(top, InitialEnemies(l)[..5]) && Distinct(top)
    ensures EnemiesAre(es, InitialEnemies(l)) && Distinct(es)
    ensures forall k :: 0 <= k < |es| ==> es[k] in top || fresh(es[k])
  {
    es := top;
    var startX := l.Left() + 8;
    var spacing := 8;
    for i := 0 to 3
      invariant EnemiesAre(es, InitialEnemies(l)[..5 + i]) && Distinct(es)
      invariant forall k :: 0 <= k < |es| ==> es[k] in top || fresh(es[k])
    {
      var e := new Enemy(startX + i * spacing, l.Top() + 4, BottomRow);
      assert InitialEnemies(l)[..5 + i + 1] == InitialEnemies(l)[..5 + i] + [e.View()];
      es := es + [e];
    }
    assert InitialEnemies(l)[..8] == InitialEnemies(l);
  }

  class GameManager {
    var current: RenderState
    var previous: RenderState
    var player: Player
    var enemies: seq<Enemy>
    var bullets: seq<Bullet>
    const width: nat
    const height: nat
    const gameAreaLeft: int := 1
    const gameAreaTop: int := 3
    const gameAreaRight: int
    const gameAreaBottom: int
    const gameSpeed: int
    var score: int
    var startTime: int
    var running: bool
    var movingRight: bool
    var lastEnemyMove: int
    var lastEnemyShoot: int

    /** The terminal size the play area is laid out in. */
    function Area(): Layout {
      Layout(width, height)
    }

    /**
     * The two render buffers are distinct, have the terminal's size and are well formed; the
     * play area's bounds follow from the size; no object appears twice in the enemy or bullet list.
     */
    ghost predicate Valid()
      reads this`current, this`previous, this`enemies, this`bullets
      reads current, previous, current.chars, current.colors, previous.chars, previous.colors
    {
      gameAreaRight == width - 2 && gameAreaBottom == height - 2 &&
      current != previous && current.chars != previous.chars && current.colors != previous.colors &&
      current.Valid() && previous.Valid() &&
      current.width == width && current.height == height &&
      previous.width == width && previous.height == height &&
      Distinct(enemies) && Distinct(bullets)
    }

    /** The manager's state is the game state v. */
    ghost predicate Models(v: GameView)
      reads this, player, enemies, bullets, current, previous
    {
      player.View() == v.player && EnemiesAre(enemies, v.enemies) && BulletsAre(bullets, v.bullets) &&
      score == v.score && movingRight == v.movingRight && running == v.running &&
      startTime == v.startTime && lastEnemyMove == v.lastEnemyMove && lastEnemyShoot == v.lastEnemyShoot &&
      current.grid == v.current && previous.grid == v.previous
    }

    /**
     * Every object the manager refers to now was referred to before or is new, and the two
     * render buffers are the same pair (possibly swapped).
     */
    twostate predicate Grown()
      reads this
    {
      (player == old(player) || fresh(player)) &&
      (forall k :: 0 <= k < |enemies| ==> enemies[k] in old(enemies) || fresh(enemies[k])) &&
      (forall k :: 0 <= k < |bullets| ==> bullets[k] in old(bullets) || fresh(bullets[k])) &&
      ((current == old(current) && previous == old(previous)) ||
       (current == old(previous) && previous == old(current)))
    }

    /** A new game on a width-by-height terminal at time `now`. */
    constructor (gameSpeed: int, width: nat, height: nat, now: int)
      ensures Valid() && Models(Initial(Area(), now))
      ensures this.gameSpeed == gameSpeed && this.width == width && this.height == height
    {
      this.gameSpeed := gameSpeed;
      startTime := now;
      this.width := width;
      this.height := height;
      gameAreaRight := width - 2;
      gameAreaBottom := height - 2;
      current := new RenderState(width, height);
      previous := new RenderState(width, height);
      var p, es := SpawnFormation(Layout(width, height));
      player := p;
      enemies := es;
      bullets := [];
      score := 0;
      running := true;
      movingRight := true;
      lastEnemyMove := now;
      lastEnemyShoot := now;
    }

    /** A new ship and formation, and no bullets. */
    method InitializeGame()
      requires Valid()
      modifies this`player, this`enemies, this`bullets
      ensures Valid()
      ensures fresh(player) && player.View() == InitialPlayer(Area())
      ensures EnemiesAre(enemies, InitialEnemies(Area())) && forall k :: 0 <= k < |enemies| ==> fresh(enemies[k])
      ensures bullets == []
    {
      player, enemies := SpawnFormation(Area());
      bullets := [];
    }

    /** Resets the game to a fresh one at time `now`, clearing both buffers; the running flag stays. */
    method RestartGame(now: int, ghost v: GameView)
      requires Valid() && Models(v)
      modifies this`score, this`startTime, this`movingRight, this`lastEnemyMove, this`lastEnemyShoot
      modifies this`player, this`enemies, this`bullets
      modifies current, current.chars, current.colors, previous, previous.chars, previous.colors
      ensures Valid() && Models(Restarted(v, Area(), now))
      ensures fresh(player) && bullets == [] && forall k :: 0 <= k < |enemies| ==> fresh(enemies[k])
    {
      ClearBuffers();
      InitializeGame();
      ResetCounters(now);
    }

    /** Blanks both render buffers. */
    method ClearBuffers()
      requires Valid()
      modifies current, current.chars, current.colors, previous, previous.chars, previous.colors
      ensures Valid() && current.grid == Blank(width, height) && previous.grid == Blank(width, height)
    {
      current.Clear();
      previous.Clear();
    }

    /** Score zero, direction right, all three timers at `now`. */
    method ResetCounters(now: int)
      modifies this`score, this`startTime, this`movingRight, this`lastEnemyMove, this`lastEnemyShoot
      ensures score == 0 && startTime == now && movingRight && lastEnemyMove == now && lastEnemyShoot == now
    {
      score := 0;
      startTime := now;
      movingRight := true;
      lastEnemyMove := now;
      lastEnemyShoot := now;
    }

    /**
     * The effect of the key read this tick (if any); the result says whether a screenshot was
     * asked for.
     */
    method HandleInput(key: Option<Key>, ghost v: GameView) returns (screenshot: bool)
      requires Valid() && Models(v)
      modifies this`running, this`bullets, player
      ensures Valid() && Models(HandleKey(v, Area(), key))
      ensures screenshot <==> key == Some(KeyS)
      ensures Grown()
    {
      screenshot := false;
      match key {
        case None =>
        case Some(k) =>
          match k {
            case LeftArrow =>
              player.MoveLeft(gameAreaLeft);
            case RightArrow =>
              player.MoveRight(gameAreaRight);
            case Spacebar =>
              Shoot(v);
            case KeyS =>
              screenshot := true;
            case KeyQ =>
              running := false;
            case OtherKey =>
          }
      }
    }

    /** The spacebar: with capacity left, a player bullet appears just above the ship and is counted. */
    method Shoot(ghost v: GameView)
      requires Valid() && Models(v)
      modifies this`bullets, player
      ensures Valid() && Models(HandleKey(v, Area(), Some(Spacebar)))
      ensures player == old(player) && forall k :: 0 <= k < |bullets| ==> bullets[k] in old(bullets) || fresh(bullets[k])
    {
      if player.CanShoot() {
        var b := new Bullet(player.x, player.y - 1, true);
        AddBullet(b, v);
        player.Shoot();
      }
    }

    /** Appends a new bullet to the bullet list. */
    method AddBullet(b: Bullet, ghost v: GameView)
      requires Valid() && Models(v) && b !in bullets
      modifies this`bullets
      ensures Valid() && Models(v.(bullets := v.bullets + [b.View()]))
      ensures bullets == old(bullets) + [b]
    {
      bullets := bullets + [b];
    }

    /** The first live enemy, in list order, that bullet b hits. */
    method FindVictim(b: Bullet, ghost es: seq<EnemyView>) returns (victim: Option<nat>)
      requires EnemiesAre(enemies, es)
      ensures victim == FirstHit(b.View(), es)
    {
      var j := 0;
      while j < |enemies|
        invariant 0 <= j <= |enemies|
        invariant FirstHit(b.View(), es) == FirstHitFrom(b.View(), es, j)
      {
        if enemies[j].alive {
          var hit := b.CheckCollisionEnemy(enemies[j]);
          if hit {
            return Some(j);
          }
        }
        j := j + 1;
      }
      return None;
    }

    /**
     * The bullet pass: every bullet in turn advances and is checked for hits, until one hits the player.
     * Bullets to remove are collected, not yet removed.
     */
    method ResolveBullets(ghost v: GameView) returns (hit: bool, toRemove: seq<Bullet>, ghost p: Pass)
      requires Valid() && Models(v)
      modifies this`score, player, bullets, enemies
      ensures p == BulletPass(v, Area()) && hit == p.playerHit
      ensures Valid() && Models(p.game)
      ensures !hit ==> toRemove == Picked(bullets, p.removed)
    {
      var i;
      i, hit, toRemove := BulletTurns(v);
      PassComplete(v, Area(), i, bullets, hit, toRemove);
      p := BulletPass(v, Area());
    }

    /** The bullets take their turns in order until all have, or one hits the player (bullet i - 1's turn). */
    method BulletTurns(ghost v: GameView) returns (i: nat, hit: bool, toRemove: seq<Bullet>)
      requires Valid() && Models(v)
      modifies this`score, player, bullets, enemies
      ensures i <= |bullets| == |v.bullets| && (i == |bullets| || hit)
      ensures hit == PassUpTo(v, Area(), i).playerHit
      ensures Valid() && Models(PassUpTo(v, Area(), i).game)
      ensures toRemove == Picked(bullets[..i], PassUpTo(v, Area(), i).removed[..i])
    {
      hit := false;
      toRemove := [];
      i := 0;
      ghost var q := PassUpTo(v, Area(), 0);
      while i < |bullets| && !hit
        invariant 0 <= i <= |bullets| == |v.bullets|
        invariant q == PassUpTo(v, Area(), i) && hit == q.playerHit
        invariant Models(q.game)
        invariant toRemove == Picked(bullets[..i], q.removed[..i])
      {
        toRemove, hit, q := Turn(i, v, q, toRemove);
        i := i + 1;
      }
    }

    /** Bullet i's turn within the pass q of the first i turns, and the list of bullets to remove updated by it. */
    method Turn(i: nat, ghost v: GameView, ghost q: Pass, toRemove: seq<Bullet>) returns (collected: seq<Bullet>, hit: bool, ghost next: Pass)
      requires i < |bullets| == |v.bullets| && q == PassUpTo(v, Area(), i) && !q.playerHit
      requires Valid() && Models(q.game)
      requires toRemove == Picked(bullets[..i], q.removed[..i])
      modifies this`score, player, bullets[i], enemies
      ensures next == PassUpTo(v, Area(), i + 1) && hit == next.playerHit
      ensures Valid() && Models(next.game)
      ensures collected == Picked(bullets[..i + 1], next.removed[..i + 1])
    {
      PassUntouched(v, Area(), i);
      PassStep(v, Area(), i + 1);
      var remove;
      remove, hit := ResolveBullet(i, q);
      next := Rules.ResolveBullet(q, i, Area());
      PickedAfterTurn(bullets, q.removed, next.removed, i, toRemove, remove);
      collected := if remove then toRemove + [bullets[i]] else toRemove;
    }

    /**
     * Bullet i's turn: it advances; off the play area it is to be removed (and the player's
     * capacity is freed if it is the player's); a player bullet otherwise kills the first live
     * enemy it hits, is to be removed, frees capacity and scores; an enemy bullet is checked
     * against the player.
     */
    method ResolveBullet(i: nat, ghost p: Pass) returns (remove: bool, hit: bool)
      requires i < |p.game.bullets| == |p.removed| && !p.playerHit
      requires Valid() && Models(p.game)
      modifies this`score, player, bullets[i], enemies
      ensures Valid() && Models(Rules.ResolveBullet(p, i, Area()).game)
      ensures Rules.ResolveBullet(p, i, Area()).removed == if remove then p.removed[i := true] else p.removed
      ensures hit == Rules.ResolveBullet(p, i, Area()).playerHit
    {
      ghost var bv := Advanced(p.game.bullets[i]);
      ghost var g := p.game.(bullets := p.game.bullets[i := bv]);
      var b := bullets[i];
      b.Update();
      assert Models(g);
      remove, hit := false, false;
      if b.y < gameAreaTop || b.y > gameAreaBottom {
        remove := true;
        if b.isPlayerBullet { player.BulletDestroyed(); }
      } else if b.isPlayerBullet {
        remove := HitEnemy(b, bv, g);
      } else {
        hit := b.CheckCollisionPlayer(player);
      }
    }

    method HitEnemy(b: Bullet, ghost bv: BulletView, ghost g: GameView) returns (remove: bool)
      requires Valid() && Models(g) && b.View() == bv
      modifies this`score, player, enemies
      ensures Valid()
      ensures remove <==> FirstHit(bv, g.enemies).Some?
      ensures Models(Strike(g, bv))
    {
      var victim := FindVictim(b, g.enemies);
      remove := false;
      if victim.Some? {
        enemies[victim.value].alive := false;
        remove := true;
        player.BulletDestroyed();
        score := score + KillScore;
      }
    }

    /** Removes each collected bullet from the bullet list (its first occurrence). */
    method RemoveBullets(toRemove: seq<Bullet>, ghost p: Pass)
      requires Valid() && Models(p.game) && |p.removed| == |bullets| && toRemove == Picked(bullets, p.removed)
      modifies this`bullets
      ensures Valid() && Models(p.game.(bullets := Survivors(p)))
      ensures forall k :: 0 <= k < |bullets| ==> bullets[k] in old(bullets)
    {
      ghost var all := bullets;
      PickedMarks(all, p.removed);
      var j := 0;
      ExcludingNothing(all);
      assert toRemove[..0] == [];
      while j < |toRemove|
        invariant 0 <= j <= |toRemove|
        invariant bullets == Excluding(all, toRemove[..j])
      {
        WithoutExcluding(all, toRemove[..j], toRemove[j]);
        assert toRemove[..j + 1] == toRemove[..j] + [toRemove[j]];
        bullets := Without(bullets, toRemove[j]);
        j := j + 1;
      }
      assert toRemove[..j] == toRemove;
      ExcludingKeepsViews(all, toRemove, p.game.bullets, p.removed);
      ExcludingDistinct(all, toRemove);
      ExcludingMembers(all, toRemove);
    }

    /** Whether some live enemy is at the edge for the current direction. */
    method EdgeReached(ghost es: seq<EnemyView>) returns (hitEdge: bool)
      requires Valid() && EnemiesAre(enemies, es)
      ensures hitEdge == EdgeHit(es, movingRight, Area())
    {
      var k := 0;
      while k < |enemies|
        invariant 0 <= k <= |enemies|
        invariant !EdgeHit(es[..k], movingRight, Area())
      {
        assert es[..k + 1][..k] == es[..k];
        var enemy := enemies[k];
        if enemy.alive {
          if movingRight && enemy.x + enemy.Width() >= gameAreaRight - 1 {
            EdgeHitIffSomeAtEdge(es, movingRight, Area());
            return true;
          } else if !movingRight && enemy.x <= gameAreaLeft + 1 {
            EdgeHitIffSomeAtEdge(es, movingRight, Area());
            return true;
          }
        }
        k := k + 1;
      }
      assert es[..k] == es;
      return false;
    }

    /** The formation step, when its timer has run out. */
    method UpdateEnemies(now: int, ghost v: GameView)
      requires Valid() && Models(v)
      modifies this`movingRight, this`lastEnemyMove, enemies
      ensures Valid() && Models(EnemiesPhase(v, Area(), now))
    {
      if now - lastEnemyMove >= EnemyMoveDelay {
        StepFormation(v);
        lastEnemyMove := now;
      }
    }

    /** Descend and turn when a live enemy is at the edge, otherwise shift one column. */
    method StepFormation(ghost v: GameView)
      requires Valid() && Models(v)
      modifies this`movingRight, enemies
      ensures Valid()
      ensures Models(v.(enemies := FormationStep(v.enemies, v.movingRight, Area()).0,
                        movingRight := FormationStep(v.enemies, v.movingRight, Area()).1))
    {
      var hitEdge := EdgeReached(v.enemies);
      if hitEdge {
        assert FormationStep(v.enemies, v.movingRight, Area()) == (Shifted(v.enemies, 0, 1), !v.movingRight);
        Descend(v);
      } else {
        assert FormationStep(v.enemies, v.movingRight, Area()) ==
               (Shifted(v.enemies, if v.movingRight then 1 else -1, 0), v.movingRight);
        Shift(v);
      }
    }

    /** The formation drops one row and turns around. */
    method Descend(ghost v: GameView)
      requires Valid() && Models(v)
      modifies this`movingRight, enemies
      ensures Valid() && Models(v.(enemies := Shifted(v.enemies, 0, 1), movingRight := !v.movingRight))
    {
      MoveAlive(0, 1, v.enemies);
      movingRight := !movingRight;
    }

    /** The formation moves one column in its current direction. */
    method Shift(ghost v: GameView)
      requires Valid() && Models(v)
      modifies enemies
      ensures Valid() && Models(v.(enemies := Shifted(v.enemies, if v.movingRight then 1 else -1, 0)))
    {
      MoveAlive(if movingRight then 1 else -1, 0, v.enemies);
    }

    /** Moves every live enemy by (dx, dy). */
    method MoveAlive(dx: int, dy: int, ghost es: seq<EnemyView>)
      requires EnemiesAre(enemies, es) && Distinct(enemies)
      modifies enemies
      ensures EnemiesAre(enemies, Shifted(es, dx, dy))
    {
      var k := 0;
      while k < |enemies|
        invariant 0 <= k <= |enemies|
        invariant forall j :: 0 <= j < k ==> enemies[j].View() == Shifted(es, dx, dy)[j]
        invariant forall j :: k <= j < |enemies| ==> enemies[j].View() == es[j]
      {
        var enemy := enemies[k];
        if enemy.alive {
          enemy.Move(dx, dy);
        }
        k := k + 1;
      }
    }

    /** Enemy fire, when its timer has run out: a chosen live enemy fires one bullet. */
    method UpdateEnemyShooting(now: int, draw: nat, ghost v: GameView)
      requires Valid() && Models(v)
      modifies this`bullets, this`lastEnemyShoot
      ensures Valid() && Models(ShootPhase(v, now, draw))
      ensures forall k :: 0 <= k < |bullets| ==> bullets[k] in old(bullets) || fresh(bullets[k])
    {
      if now - lastEnemyShoot >= EnemyShootDelay {
        Fire(draw, v);
        lastEnemyShoot := now;
      }
    }

    /** A randomly chosen live enemy, if there is one, adds a bullet below its middle. */
    method Fire(draw: nat, ghost v: GameView)
      requires Valid() && Models(v)
      modifies this`bullets
      ensures Valid() && Models(Fired(v, draw))
      ensures forall k :: 0 <= k < |bullets| ==> bullets[k] in old(bullets) || fresh(bullets[k])
    {
      var aliveEnemies := CollectAlive(v.enemies);
      ghost var alive := AliveEnemies(v.enemies);
      if |aliveEnemies| > 0 {
        var shootingEnemy := aliveEnemies[draw % |aliveEnemies|];
        ghost var shot := ShotFrom(alive[draw % |alive|]);
        assert Fired(v, draw) == v.(bullets := v.bullets + [shot]);
        var b := new Bullet(shootingEnemy.x + shootingEnemy.Width() / 2, shootingEnemy.y + 1, false);
        assert b.View() == shot;
        AddBullet(b, v);
      }
    }

    /** The live enemies, in list order. */
    method CollectAlive(ghost es: seq<EnemyView>) returns (aliveEnemies: seq<Enemy>)
      requires EnemiesAre(enemies, es)
      ensures EnemiesAre(aliveEnemies, AliveEnemies(es))
    {
      aliveEnemies := [];
      var k := 0;
      while k < |enemies|
        invariant 0 <= k <= |enemies|
        invariant EnemiesAre(aliveEnemies, AliveEnemies(es[..k]))
      {
        assert es[..k + 1][..k] == es[..k];
        if enemies[k].alive {
          aliveEnemies := aliveEnemies + [enemies[k]];
        }
        k := k + 1;
      }
      assert es[..k] == es;
    }

    /** The win test: a scan of the enemies that stops at the first live one. */
    method AllEnemiesDead(ghost es: seq<EnemyView>) returns (dead: bool)
      requires EnemiesAre(enemies, es)
      ensures dead <==> AliveCount(es) == 0
    {
      AllDeadIffNoneAlive(es);
      var k := 0;
      while k < |enemies|
        invariant 0 <= k <= |enemies|
        invariant forall j :: 0 <= j < k ==> !es[j].alive
      {
        if enemies[k].alive {
          return false;
        }
        k := k + 1;
      }
      return true;
    }

    /**
     * The simulation step of a tick. The loss and win screens are replaced by the answers they
     * would get: restart or stop.
     */
    method UpdateGame(now: int, draw: nat, restartOnLoss: bool, restartOnWin: bool, ghost v: GameView)
      requires Valid() && Models(v)
      modifies this, player, enemies, bullets, current, current.chars, current.colors, previous, previous.chars, previous.colors
      ensures Valid() && Models(UpdateSpec(v, Area(), now, draw, restartOnLoss, restartOnWin))
      ensures Grown()
    {
      ghost var target := UpdateSpec(v, Area(), now, draw, restartOnLoss, restartOnWin);
      var hit, toRemove, p := ResolveBullets(v);
      if hit {
        assert target == Rules.EndScreen(p.game, Area(), now, restartOnLoss);
        EndGame(now, restartOnLoss, p.game);
        return;
      }
      ghost var g2 := WorldStep(p, Area(), now, draw);
      assert target == if AliveCount(g2.enemies) == 0 then Rules.EndScreen(g2, Area(), now, restartOnWin) else g2;
      AfterPass(now, draw, restartOnWin, toRemove, p);
    }

    /** The rest of a tick the player survived: bullets go, the world advances, and the win test. */
    method AfterPass(now: int, draw: nat, restartOnWin: bool, toRemove: seq<Bullet>, ghost p: Pass)
      requires Valid() && Models(p.game) && |p.removed| == |bullets| && toRemove == Picked(bullets, p.removed)
      modifies this, player, enemies, bullets, current, current.chars, current.colors, previous, previous.chars, previous.colors
      ensures var g2 := WorldStep(p, Area(), now, draw);
              Valid() && Models(if AliveCount(g2.enemies) == 0 then Rules.EndScreen(g2, Area(), now, restartOnWin) else g2)
      ensures Grown()
    {
      AdvanceWorld(now, draw, toRemove, p);
      WinCheck(now, restartOnWin, WorldStep(p, Area(), now, draw));
    }

    /** The win test: when no enemy is alive the victory screen's answer decides. */
    method WinCheck(now: int, restartOnWin: bool, ghost g: GameView)
      requires Valid() && Models(g)
      modifies this, player, enemies, bullets, current, current.chars, current.colors, previous, previous.chars, previous.colors
      ensures Valid() && Models(if AliveCount(g.enemies) == 0 then Rules.EndScreen(g, Area(), now, restartOnWin) else g)
      ensures Grown()
    {
      var dead := AllEnemiesDead(g.enemies);
      if dead {
        EndGame(now, restartOnWin, g);
      }
    }

    /** The spent bullets are removed, then the formation steps and the enemies fire. */
    method AdvanceWorld(now: int, draw: nat, toRemove: seq<Bullet>, ghost p: Pass)
      requires Valid() && Models(p.game) && |p.removed| == |bullets| && toRemove == Picked(bullets, p.removed)
      modifies this`bullets, this`movingRight, this`lastEnemyMove, this`lastEnemyShoot, enemies
      ensures Valid() && Models(WorldStep(p, Area(), now, draw))
      ensures forall k :: 0 <= k < |bullets| ==> bullets[k] in old(bullets) || fresh(bullets[k])
    {
      RemoveBullets(toRemove, p);
      ghost var g1 := p.game.(bullets := Survivors(p));
      UpdateEnemies(now, g1);
      UpdateEnemyShooting(now, draw, EnemiesPhase(g1, Area(), now));
    }

    /** The answer to the game-over or victory screen: restart, or stop running. */
    method EndGame(now: int, restart: bool, ghost v: GameView)
      requires Valid() && Models(v)
      modifies this`score, this`startTime, this`movingRight, this`lastEnemyMove, this`lastEnemyShoot, this`running
      modifies this`player, this`enemies, this`bullets
      modifies current, current.chars, current.colors, previous, previous.chars, previous.colors
      ensures Valid() && Models(Rules.EndScreen(v, Area(), now, restart))
      ensures Grown()
    {
      if restart {
        RestartGame(now, v);
      } else {
        running := false;
      }
    }

    /** The border: top row, bottom row, then the sides between them. */
    method DrawBorder()
      requires Valid()
      modifies current, current.chars, current.colors
      ensures Valid() && current.grid == PaintBorder(old(current.grid), Area())
    {
      DrawBorderRow(gameAreaTop, TopLeft, TopRight);
      DrawBorderRow(gameAreaBottom, BottomLeft, BottomRight);
      DrawSides();
    }

    /** Row y of the border: the left corner, the horizontal run, the right corner. */
    method DrawBorderRow(y: int, left: char, right: char)
      requires Valid()
      modifies current, current.chars, current.colors
      ensures Valid() && current.grid == BorderRow(old(current.grid), Area(), y, left, right)
    {
      current.SetPixel(gameAreaLeft, y, left, BorderColor);
      ghost var g1 := current.grid;
      var x := gameAreaLeft + 1;
      while x < gameAreaRight
        invariant gameAreaLeft + 1 <= x && (x <= gameAreaRight || x == gameAreaLeft + 1)
        invariant current.Valid() && current.grid == HRun(g1, gameAreaLeft + 1, x, y, Horizontal)
      {
        current.SetPixel(x, y, Horizontal, BorderColor);
        x := x + 1;
      }
      current.SetPixel(gameAreaRight, y, right, BorderColor);
    }

    /** The side glyphs on every row strictly between the top and bottom rows. */
    method DrawSides()
      requires Valid()
      modifies current, current.chars, current.colors
      ensures Valid() && current.grid == Sides(old(current.grid), gameAreaLeft, gameAreaRight, gameAreaTop + 1, gameAreaBottom)
    {
      var y := gameAreaTop + 1;
      while y < gameAreaBottom
        invariant gameAreaTop + 1 <= y && (y <= gameAreaBottom || y == gameAreaTop + 1)
        invariant current.Valid() && current.grid == Sides(old(current.grid), gameAreaLeft, gameAreaRight, gameAreaTop + 1, y)
      {
        current.SetPixel(gameAreaLeft, y, Vertical, BorderColor);
        current.SetPixel(gameAreaRight, y, Vertical, BorderColor);
        y := y + 1;
      }
    }

    /** The status line of the state v at time `now`, clipped to the play area: the manager's score, start time and counter are v's. */
    method DrawUI(now: int, ghost v: GameView)
      requires Valid() && score == v.score && startTime == v.startTime && player.View() == v.player
      modifies current, current.chars, current.colors
      ensures Valid()
      ensures current.grid == PaintUI(old(current.grid), Area(),
                                      StatusLine(v.score, ElapsedSeconds(now, v.startTime), v.player.shots, MaxBullets))
    {
      var elapsedSeconds := ElapsedSeconds(now, startTime);
      var shown, inFlight := score, player.currentBullets;
      assert shown == v.score && elapsedSeconds == ElapsedSeconds(now, v.startTime) && inFlight == v.player.shots;
      var ui := StatusLine(shown, elapsedSeconds, inFlight, MaxBullets);
      WriteStatus(ui);
    }

    /** Writes ui character by character from column left + 2 until the text ends or column `Right` is reached. */
    method WriteStatus(ui: string)
      requires Valid()
      modifies current, current.chars, current.colors
      ensures Valid()
      ensures current.grid == PaintUI(old(current.grid), Area(), ui)
    {
      var uiY := gameAreaTop + 1;
      var uiX := gameAreaLeft + 2;
      var i := 0;
      while i < |ui| && uiX + i < gameAreaRight
        invariant 0 <= i <= UiLength(Area(), |ui|)
        invariant current.Valid() && current.grid == PaintText(old(current.grid), uiX, uiY, ui[..i], UiColor)
      {
        assert ui[..i + 1][..i] == ui[..i];
        current.SetPixel(uiX + i, uiY, ui[i], UiColor);
        i := i + 1;
      }
    }

    /** The writes for the cells where the current buffer differs from the previous one, row by row. */
    method EmitChanges() returns (writes: seq<Write>)
      requires Valid()
      ensures writes == Diff(current.grid, previous.grid, width, height)
    {
      writes := [];
      var y := 0;
      while y < current.height
        invariant 0 <= y <= height
        invariant writes == Diff(current.grid, previous.grid, width, y)
      {
        var x := 0;
        while x < current.width
          invariant 0 <= x <= width
          invariant writes == Diff(current.grid, previous.grid, width, y) + RowDiff(current.grid, previous.grid, y, x)
        {
          var currentChar := current.GetChar(x, y);
          var previousChar := previous.GetChar(x, y);
          var currentColor := current.GetColor(x, y);
          var previousColor := previous.GetColor(x, y);
          if currentChar != previousChar || currentColor != previousColor {
            writes := writes + [Write(x, y, Cell(currentChar, currentColor))];
          }
          x := x + 1;
        }
        y := y + 1;
      }
    }

    /**
     * Rendering: paint the frame into the current buffer, emit the cells that changed since the
     * previous frame, and swap the buffers.
     */
    method Render(now: int, ghost v: GameView) returns (writes: seq<Write>)
      requires Valid() && Models(v)
      modifies this`current, this`previous, current, current.chars, current.colors
      ensures Valid() && Models(RenderSpec(v, Area(), now).0)
      ensures writes == RenderSpec(v, Area(), now).1
      ensures current == old(previous) && previous == old(current)
    {
      var w, f := Repaint(now, v);
      writes := w;
      SwapBuffers(v.(current := f));
    }

    /** Paints the frame of state v into the current buffer (the frame f) and emits the cells that differ from the previous one. */
    method Repaint(now: int, ghost v: GameView) returns (writes: seq<Write>, ghost f: Grid)
      requires Valid() && Models(v)
      modifies current, current.chars, current.colors
      ensures f == FrameOf(v, Area(), now)
      ensures Valid() && Models(v.(current := f))
      ensures writes == Diff(f, v.previous, width, height)
    {
      PaintFrame(now, v);
      f := FrameOf(v, Area(), now);
      writes := EmitChanges();
    }

    /** The buffer just painted becomes the previous one, and the other is the next to paint into. */
    method SwapBuffers(ghost v: GameView)
      requires Valid() && Models(v)
      modifies this`current, this`previous
      ensures Valid() && Models(v.(current := v.previous, previous := v.current))
      ensures current == old(previous) && previous == old(current)
    {
      current, previous := previous, current;
    }

    /** Clears the current buffer and paints the frame of state v into it. */
    method PaintFrame(now: int, ghost v: GameView)
      requires Valid() && Models(v)
      modifies current, current.chars, current.colors
      ensures Valid() && Models(v.(current := FrameOf(v, Area(), now)))
    {
      assert StatusText(v, now) == StatusLine(v.score, ElapsedSeconds(now, v.startTime), v.player.shots, MaxBullets);
      PaintBackdrop(now, v);
      DrawSprites(v);
    }

    /** Draws the enemies, then the bullets, of state v over what the current buffer holds. */
    method DrawSprites(ghost v: GameView)
      requires Valid() && EnemiesAre(enemies, v.enemies) && BulletsAre(bullets, v.bullets)
      modifies current, current.chars, current.colors
      ensures Valid() && current.grid == PaintBullets(PaintEnemies(old(current.grid), v.enemies), v.bullets)
    {
      DrawEnemies(v.enemies);
      DrawBullets(v.bullets);
    }

    /** Clears the current buffer, then draws the border, the status line and the ship. */
    method PaintBackdrop(now: int, ghost v: GameView)
      requires Valid() && Models(v)
      modifies current, current.chars, current.colors
      ensures Valid() && current.grid == Backdrop(v, Area(), StatusLine(v.score, ElapsedSeconds(now, v.startTime), v.player.shots, MaxBullets))
    {
      current.Clear();
      DrawBorder();
      ghost var border := current.grid;
      assert border == PaintBorder(Blank(width, height), Area());
      DrawUI(now, v);
      ghost var g1 := current.grid;
      assert g1 == PaintUI(PaintBorder(Blank(width, height), Area()), Area(),
                           StatusLine(v.score, ElapsedSeconds(now, v.startTime), v.player.shots, MaxBullets));
      assert player.x == v.player.x && player.y == v.player.y;
      player.Render(current);
      assert current.grid == SetCell(g1, v.player.x, v.player.y, Cell(PlayerSymbol, PlayerColor));
    }

    /** Draws the enemies in list order. */
    method DrawEnemies(ghost es: seq<EnemyView>)
      requires Valid() && EnemiesAre(enemies, es)
      modifies current, current.chars, current.colors
      ensures Valid() && current.grid == PaintEnemies(old(current.grid), es)
    {
      ghost var start := current.grid;
      var k := 0;
      while k < |enemies|
        invariant 0 <= k <= |enemies|
        invariant current.Valid() && current.grid == PaintEnemies(start, es[..k])
      {
        assert es[..k + 1][..k] == es[..k];
        enemies[k].Render(current);
        k := k + 1;
      }
      assert es[..k] == es;
    }

    /** Draws the bullets in list order. */
    method DrawBullets(ghost bs: seq<BulletView>)
      requires Valid() && BulletsAre(bullets, bs)
      modifies current, current.chars, current.colors
      ensures Valid() && current.grid == PaintBullets(old(current.grid), bs)
    {
      ghost var start := current.grid;
      var k := 0;
      while k < |bullets|
        invariant 0 <= k <= |bullets|
        invariant current.Valid() && current.grid == PaintBullets(start, bs[..k])
      {
        assert bs[..k + 1][..k] == bs[..k];
        bullets[k].Render(current);
        k := k + 1;
      }
      assert bs[..k] == bs;
    }

    /**
     * The main loop over the given inputs: while the game is running and input lasts, one tick
     * each (input, simulation step, rendering), then the delay for the game's speed. The results
     * are everything written to the terminal and the delay slept after each tick.
     */
    method RunGameLoop(inputs: seq<TickInput>, ghost v: GameView) returns (writes: seq<Write>, delays: seq<nat>)
      requires Valid() && Models(v)
      modifies this, player, enemies, bullets, current, current.chars, current.colors, previous, previous.chars, previous.colors
      ensures Valid() && Models(Run(v, Area(), inputs).0)
      ensures writes == Run(v, Area(), inputs).1
      ensures |delays| <= |inputs| && forall k :: 0 <= k < |delays| ==> delays[k] == TickDelay(gameSpeed)
    {
      writes, delays := [], [];
      ghost var u := v;
      var i := 0;
      RunBegins(v, Area(), inputs);
      while running && i < |inputs|
        invariant 0 <= i <= |inputs| && |delays| == i
        invariant Valid() && Models(u) && Grown()
        invariant RunSoFar(v, Area(), inputs, i, u, writes)
        invariant forall k :: 0 <= k < i ==> delays[k] == TickDelay(gameSpeed)
      {
        var w, next := Tick(inputs[i], u, inputs[i..]);
        RunAdvance(v, Area(), inputs, i, u, writes, next, w);
        writes := writes + w;
        u := next;
        var delay := TickDelay(gameSpeed);
        delays := delays + [delay];
        i := i + 1;
      }
      RunFinishes(v, Area(), inputs, i, u, writes);
    }

    /**
     * One pass of the loop body: the key, the simulation step, rendering. The run on ts, whose
     * first input is t, is this tick followed by the run on the rest from the new state.
     */
    method Tick(t: TickInput, ghost u: GameView, ghost ts: seq<TickInput>) returns (w: seq<Write>, ghost next: GameView)
      requires Valid() && Models(u) && u.running && ts != [] && ts[0] == t
      modifies this, player, enemies, bullets, current, current.chars, current.colors, previous, previous.chars, previous.colors
      ensures Run(u, Area(), ts) == (Run(next, Area(), ts[1..]).0, w + Run(next, Area(), ts[1..]).1)
      ensures Valid() && Models(next) && Grown()
    {
      ghost var u2 := Simulate(t, u);
      w := Render(t.now, u2);
      next := RenderSpec(u2, Area(), t.now).0;
      RunStep(u, Area(), ts);
    }

    /** The key, then the simulation step. */
    method Simulate(t: TickInput, ghost u: GameView) returns (ghost u2: GameView)
      requires Valid() && Models(u)
      modifies this, player, enemies, bullets, current, current.chars, current.colors, previous, previous.chars, previous.colors
      ensures u2 == UpdateSpec(HandleKey(u, Area(), t.key), Area(), t.now, t.draw, t.restartOnLoss, t.restartOnWin)
      ensures Valid() && Models(u2) && Grown()
    {
      var screenshot := HandleInput(t.key, u);
      ghost var u1 := HandleKey(u, Area(), t.key);
      UpdateGame(t.now, t.draw, t.restartOnLoss, t.restartOnWin, u1);
      u2 := UpdateSpec(u1, Area(), t.now, t.draw, t.restartOnLoss, t.restartOnWin);
    }
  }
}
