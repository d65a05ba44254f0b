/**
 * The game's rules on values: the play area, the state of a game as a value, and one function
 * per step of a tick (input, the bullet pass, the formation step, the enemy shot, the win test,
 * the restart). GameManager's methods are proved to carry out these functions; the lemmas here
 * state what the rules guarantee.
 */
module Rules {
  import opened Options
  import opened Screen
  import opened Format
  import opened EnemyEntity
  import opened PlayerEntity
  import opened BulletEntity

  /** Milliseconds between two formation steps, and between two enemy shots. */
  const EnemyMoveDelay: int := 500
  const EnemyShootDelay: int := 2000
  /** Points for destroying an enemy. */
  const KillScore: int := 10

  /** The terminal size; the play area's bounds follow from it. */
  datatype Layout = Layout(width: nat, height: nat) {
    function Left(): int { 1 }
    function Right(): int { width - 2 }
    function Top(): int { 3 }
    function Bottom(): int { height - 2 }
  }

  /** The keys the game reacts to; every other key is OtherKey. */
  datatype Key = LeftArrow | RightArrow | Spacebar | KeyS | KeyQ | OtherKey

  /** The whole state of a game: entities, score, formation direction, timers and both render buffers. */
  datatype GameView = GameView(
    player: PlayerView,
    enemies: seq<EnemyView>,
    bullets: seq<BulletView>,
    score: int,
    movingRight: bool,
    running: bool,
    startTime: int,
    lastEnemyMove: int,
    lastEnemyShoot: int,
    current: Grid,
    previous: Grid)

  /** Milliseconds to sleep after a tick at a given speed. */
  function TickDelay(speed: int): (ms: nat)
    ensures ms == 50 || ms == 75 || ms == 100
    ensures speed == 2 ==> ms == 75
    ensures speed == 3 ==> ms == 50
    ensures speed != 2 && speed != 3 ==> ms == 100
  {
    match speed
    case 1 => 100
    case 2 => 75
    case 3 => 50
    case _ => 100
  }

  /**
   * Speeds 1, 2 and 3 are slow, medium and fast: a higher speed sleeps strictly less, and any
   * other speed sleeps as long as the slow one.
   */
  lemma FasterSpeedSleepsLess(a: int, b: int)
    requires 1 <= a < b <= 3
    ensures TickDelay(b) < TickDelay(a)
    ensures forall c :: c < 1 || c > 3 ==> TickDelay(c) == TickDelay(1)
  {
  }

  // ---------------------------------------------------------------- set-up

  function TopRowType(i: int): EnemyType {
    match i
    case 0 => TopRow1
    case 1 => TopRow2
    case 2 => TopRow3
    case 3 => TopRow4
    case 4 => TopRow5
    case _ => TopRow1
  }

  /** Five top-row enemies six columns apart, then three bottom-row enemies eight columns apart. */
  function InitialEnemies(l: Layout): seq<EnemyView> {
    seq(5, i => EnemyView(l.Left() + 5 + i * 6, l.Top() + 2, TopRowType(i), true)) +
    seq(3, i => EnemyView(l.Left() + 8 + i * 8, l.Top() + 4, BottomRow, true))
  }

  /** The player starts centred (integer division rounding toward zero), two rows above the bottom border. */
  function InitialPlayer(l: Layout): PlayerView {
    PlayerView(TruncDiv(l.Left() + l.Right(), 2), l.Bottom() - 2, 0)
  }

  /** A fresh game at time `now`. */
  function Initial(l: Layout, now: int): GameView {
    GameView(InitialPlayer(l), InitialEnemies(l), [], 0, true, true, now, now, now,
             Blank(l.width, l.height), Blank(l.width, l.height))
  }

  /** A restart resets everything to a fresh game; only the running flag is left as it was. */
  function Restarted(g: GameView, l: Layout, now: int): GameView {
    Initial(l, now).(running := g.running)
  }

  /** The cells an enemy occupies overlap those of another. */
  predicate Overlap(a: EnemyView, b: EnemyView) {
    a.y == b.y && a.x < b.x + WidthOf(b.kind) && b.x < a.x + WidthOf(a.kind)
  }

  /**
   * The formation starts as 8 live enemies: 5 top-row ones at x = left + 5 + 6i, y = top + 2,
   * of types TopRow1..TopRow5, and 3 bottom-row ones at x = left + 8 + 8i, y = top + 4; no two
   * of them share a cell.
   */
  lemma InitialFormation(l: Layout)
    ensures var es := InitialEnemies(l);
            |es| == 8 &&
            (forall i :: 0 <= i < |es| ==> es[i].alive) &&
            (forall i :: 0 <= i < 5 ==> es[i].x == l.Left() + 5 + 6 * i && es[i].y == l.Top() + 2 && es[i].kind != BottomRow) &&
            (forall i :: 5 <= i < 8 ==> es[i].x == l.Left() + 8 + 8 * (i - 5) && es[i].y == l.Top() + 4 && es[i].kind == BottomRow) &&
            (forall i, j :: 0 <= i < j < |es| ==> !Overlap(es[i], es[j]))
  {
    var es := InitialEnemies(l);
    forall i, j | 0 <= i < j < |es|
      ensures !Overlap(es[i], es[j])
    {
      if j < 5 {
        assert es[j].x - es[i].x == 6 * (j - i);
      } else if i >= 5 {
        assert es[j].x - es[i].x == 8 * (j - i);
      }
    }
  }

  // ---------------------------------------------------------------- counting

  /** The number of player bullets in a list. */
  function PlayerBullets(bs: seq<BulletView>): nat {
    if bs == [] then 0 else PlayerBullets(bs[..|bs| - 1]) + (if bs[|bs| - 1].isPlayer then 1 else 0)
  }

  /** The number of live enemies in a list. */
  function AliveCount(es: seq<EnemyView>): nat {
    if es == [] then 0 else AliveCount(es[..|es| - 1]) + (if es[|es| - 1].alive then 1 else 0)
  }

  /**
   * The shot counter's invariant: it equals the number of player bullets in flight and lies
   * in [0, MaxBullets], so there are never more than MaxBullets player bullets in flight.
   */
  predicate Consistent(g: GameView) {
    g.player.shots == PlayerBullets(g.bullets) && CounterInRange(g.player)
  }

  lemma PlayerBulletsAppend(bs: seq<BulletView>, b: BulletView)
    ensures PlayerBullets(bs + [b]) == PlayerBullets(bs) + (if b.isPlayer then 1 else 0)
  {
    assert (bs + [b])[..|bs|] == bs;
  }

  lemma InitialConsistent(l: Layout, now: int)
    ensures Consistent(Initial(l, now))
  {
  }

  // ---------------------------------------------------------------- input

  /** The player bullet the spacebar fires: just above the ship. */
  function PlayerShot(p: PlayerView): BulletView {
    BulletView(p.x, p.y - 1, true, true)
  }

  /** The effect of the key read this tick, if any. */
  function HandleKey(g: GameView, l: Layout, key: Option<Key>): GameView {
    match key
    case None => g
    case Some(k) =>
      match k
      case LeftArrow => g.(player := StepLeft(g.player, l.Left()))
      case RightArrow => g.(player := StepRight(g.player, l.Right()))
      case Spacebar =>
        if HasCapacity(g.player)
        then g.(bullets := g.bullets + [PlayerShot(g.player)], player := AfterShot(g.player))
        else g
      case KeyS => g
      case KeyQ => g.(running := false)
      case OtherKey => g
  }

  /**
   * The spacebar adds exactly one player bullet just above the ship and counts it when the
   * counter has capacity; otherwise it changes nothing.
   */
  lemma SpacebarFires(g: GameView, l: Layout)
    ensures var r := HandleKey(g, l, Some(Spacebar));
            if HasCapacity(g.player)
            then r.bullets == g.bullets + [BulletView(g.player.x, g.player.y - 1, true, true)] &&
                 r.player.shots == g.player.shots + 1 && r.player.x == g.player.x
            else r == g
  {
  }

  /** Input never breaks the shot counter's invariant. */
  lemma HandleKeyConsistent(g: GameView, l: Layout, key: Option<Key>)
    requires Consistent(g)
    ensures Consistent(HandleKey(g, l, key))
  {
    if key == Some(Spacebar) && HasCapacity(g.player) {
      PlayerBulletsAppend(g.bullets, PlayerShot(g.player));
    }
  }

  // ---------------------------------------------------------------- the bullet pass

  /**
   * The first enemy at index j or later that the bullet hits (list order), if any;
   * the hit test only accepts live enemies.
   */
  function FirstHitFrom(b: BulletView, es: seq<EnemyView>, j: nat): (r: Option<nat>)
    decreases |es| - j
    ensures r.Some? ==> j <= r.value < |es| && es[r.value].alive
  {
    if j >= |es| then None
    else if es[j].alive && HitsEnemy(b, es[j]) then Some(j)
    else FirstHitFrom(b, es, j + 1)
  }

  /** The search from j finds the least index at or after j whose enemy the bullet hits, or reports that none is hit. */
  lemma {:induction false} FirstHitFromIsFirst(b: BulletView, es: seq<EnemyView>, j: nat)
    decreases |es| - j
    ensures var r := FirstHitFrom(b, es, j);
            (r.Some? ==> j <= r.value < |es| && HitsEnemy(b, es[r.value]) &&
                         forall k :: j <= k < r.value ==> !HitsEnemy(b, es[k])) &&
            (r.None? ==> forall k :: j <= k < |es| ==> !HitsEnemy(b, es[k]))
  {
    if j < |es| && !(es[j].alive && HitsEnemy(b, es[j])) {
      FirstHitFromIsFirst(b, es, j + 1);
    }
  }

  function FirstHit(b: BulletView, es: seq<EnemyView>): Option<nat> {
    FirstHitFrom(b, es, 0)
  }

  /** The state threaded through the bullet pass: the game, which bullets are to be removed, and whether the player was hit. */
  datatype Pass = Pass(game: GameView, removed: seq<bool>, playerHit: bool)

  predicate OutOfBounds(b: BulletView, l: Layout) {
    b.y < l.Top() || b.y > l.Bottom()
  }

  /**
   * Bullet i's turn in the pass: it advances; off the play area it is marked for removal (freeing
   * the player's capacity if it was the player's); a player bullet otherwise kills the first
   * enemy it hits, is marked for removal, frees capacity and scores; an enemy bullet on the
   * player's cell ends the pass.
   */
  function ResolveBullet(p: Pass, i: nat, l: Layout): (r: Pass)
    requires i < |p.game.bullets| == |p.removed|
    ensures |r.game.bullets| == |p.game.bullets| == |r.removed| && |r.game.enemies| == |p.game.enemies|
    ensures SameFrame(r.game, p.game)
  {
    var b := Advanced(p.game.bullets[i]);
    var g := p.game.(bullets := p.game.bullets[i := b]);
    if OutOfBounds(b, l) then
      Pass(if b.isPlayer then g.(player := AfterBulletDestroyed(g.player)) else g, p.removed[i := true], false)
    else if b.isPlayer then
      Pass(Strike(g, b), if FirstHit(b, g.enemies).Some? then p.removed[i := true] else p.removed, false)
    else Pass(g, p.removed, HitsPlayer(b, g.player))
  }

  /**
   * A player bullet inside the play area against the formation: the first live enemy it hits
   * (if any) dies, the player's capacity is freed and the score rises by KillScore.
   */
  function Strike(g: GameView, b: BulletView): GameView {
    match FirstHit(b, g.enemies)
    case None => g
    case Some(j) =>
      g.(enemies := g.enemies[j := g.enemies[j].(alive := false)],
         player := AfterBulletDestroyed(g.player),
         score := g.score + KillScore)
  }

  function NoneRemoved(n: nat): (r: seq<bool>)
    ensures |r| == n && forall k :: 0 <= k < n ==> !r[k]
  {
    seq(n, _ => false)
  }

  /** The pass after the first n bullets have had their turn (it stops at a player hit). */
  function PassUpTo(g: GameView, l: Layout, n: nat): (r: Pass)
    requires n <= |g.bullets|
    decreases n, 0
    ensures |r.game.bullets| == |g.bullets| == |r.removed| && |r.game.enemies| == |g.enemies|
    ensures SameFrame(r.game, g)
  {
    if n == 0 then Pass(g, NoneRemoved(|g.bullets|), false) else TurnAfter(g, l, n - 1)
  }

  /** Bullet k's turn after the first k turns, unless one of them hit the player. */
  function TurnAfter(g: GameView, l: Layout, k: nat): (r: Pass)
    requires k < |g.bullets|
    decreases k, 1
    ensures |r.game.bullets| == |g.bullets| == |r.removed| && |r.game.enemies| == |g.enemies|
    ensures SameFrame(r.game, g)
  {
    var p := PassUpTo(g, l, k);
    if p.playerHit then p else ResolveBullet(p, k, l)
  }

  /** The pass after n turns is the pass after n - 1 turns followed by bullet n - 1's turn, unless that pass hit the player. */
  lemma PassStep(g: GameView, l: Layout, n: nat)
    requires 0 < n <= |g.bullets|
    ensures var p := PassUpTo(g, l, n - 1);
            PassUpTo(g, l, n) == if p.playerHit then p else ResolveBullet(p, n - 1, l)
  {
    assert PassUpTo(g, l, n) == TurnAfter(g, l, n - 1);
  }

  /** Once a turn has hit the player, the later bullets get no turn: the pass result stays as it was. */
  lemma {:induction false} PassStopsAtHit(g: GameView, l: Layout, m: nat, n: nat)
    requires m <= n <= |g.bullets| && PassUpTo(g, l, m).playerHit
    ensures PassUpTo(g, l, n) == PassUpTo(g, l, m)
    decreases n - m
  {
    if m < n {
      PassStopsAtHit(g, l, m, n - 1);
    }
  }

  /** A bullet is never marked for removal before its turn. */
  lemma {:induction false} PassUntouched(g: GameView, l: Layout, n: nat)
    requires n <= |g.bullets|
    ensures forall k :: n <= k < |g.bullets| ==> !PassUpTo(g, l, n).removed[k]
  {
    if n > 0 {
      PassUntouched(g, l, n - 1);
      PassStep(g, l, n);
    }
  }

  function BulletPass(g: GameView, l: Layout): Pass {
    PassUpTo(g, l, |g.bullets|)
  }

  /** The bullets not marked for removal, in their original order. */
  function Kept(bs: seq<BulletView>, removed: seq<bool>): seq<BulletView>
    requires |removed| == |bs|
  {
    if bs == [] then []
    else Kept(bs[..|bs| - 1], removed[..|bs| - 1]) + (if removed[|bs| - 1] then [] else [bs[|bs| - 1]])
  }

  /** The number of player bullets not marked for removal. */
  function RemainingPlayer(bs: seq<BulletView>, removed: seq<bool>): nat
    requires |removed| == |bs|
  {
    if bs == [] then 0
    else
      RemainingPlayer(bs[..|bs| - 1], removed[..|bs| - 1]) +
      (if !removed[|bs| - 1] && bs[|bs| - 1].isPlayer then 1 else 0)
  }

  lemma {:induction false} RemainingNoneRemoved(bs: seq<BulletView>)
    ensures RemainingPlayer(bs, NoneRemoved(|bs|)) == PlayerBullets(bs)
  {
    if bs != [] {
      assert NoneRemoved(|bs|)[..|bs| - 1] == NoneRemoved(|bs| - 1);
      RemainingNoneRemoved(bs[..|bs| - 1]);
    }
  }

  lemma {:induction false} KeptPlayerBullets(bs: seq<BulletView>, removed: seq<bool>)
    requires |removed| == |bs|
    ensures PlayerBullets(Kept(bs, removed)) == RemainingPlayer(bs, removed)
  {
    if bs != [] {
      var last := bs[|bs| - 1];
      KeptPlayerBullets(bs[..|bs| - 1], removed[..|bs| - 1]);
      if !removed[|bs| - 1] {
        PlayerBulletsAppend(Kept(bs[..|bs| - 1], removed[..|bs| - 1]), last);
      } else {
        assert Kept(bs, removed) == Kept(bs[..|bs| - 1], removed[..|bs| - 1]);
      }
    }
  }

  /** Replacing a bullet by one with the same owner does not change the count. */
  lemma {:induction false} RemainingSameOwner(bs: seq<BulletView>, removed: seq<bool>, i: nat, b: BulletView)
    requires |removed| == |bs| && i < |bs| && b.isPlayer == bs[i].isPlayer
    ensures RemainingPlayer(bs[i := b], removed) == RemainingPlayer(bs, removed)
  {
    if i < |bs| - 1 {
      assert bs[i := b][..|bs| - 1] == bs[..|bs| - 1][i := b];
      RemainingSameOwner(bs[..|bs| - 1], removed[..|bs| - 1], i, b);
    } else {
      assert bs[i := b][..|bs| - 1] == bs[..|bs| - 1];
    }
  }

  /** Marking a not-yet-removed bullet lowers the count by one exactly when it is a player bullet. */
  lemma {:induction false} RemainingMark(bs: seq<BulletView>, removed: seq<bool>, i: nat)
    requires |removed| == |bs| && i < |bs| && !removed[i]
    ensures RemainingPlayer(bs, removed[i := true]) + (if bs[i].isPlayer then 1 else 0) == RemainingPlayer(bs, removed)
  {
    if i < |bs| - 1 {
      assert removed[i := true][..|bs| - 1] == removed[..|bs| - 1][i := true];
      RemainingMark(bs[..|bs| - 1], removed[..|bs| - 1], i);
    } else {
      assert removed[i := true][..|bs| - 1] == removed[..|bs| - 1];
    }
  }

  lemma {:induction false} AliveCountKill(es: seq<EnemyView>, j: nat)
    requires j < |es| && es[j].alive
    ensures AliveCount(es[j := es[j].(alive := false)]) + 1 == AliveCount(es)
  {
    var dead := es[j].(alive := false);
    if j < |es| - 1 {
      assert es[j := dead][..|es| - 1] == es[..|es| - 1][j := dead];
      AliveCountKill(es[..|es| - 1], j);
    } else {
      assert es[j := dead][..|es| - 1] == es[..|es| - 1];
    }
  }

  /**
   * One bullet's turn kills at most one enemy: either the enemies are unchanged, or exactly the
   * first live enemy the advanced bullet hits dies, the bullet is marked for removal, the
   * counter drops by one and the score rises by exactly KillScore. A bullet that leaves the play
   * area is marked for removal and checked against nothing.
   */
  lemma ResolveBulletEffect(p: Pass, i: nat, l: Layout)
    requires i < |p.game.bullets| == |p.removed|
    ensures var r := ResolveBullet(p, i, l);
            var b := Advanced(p.game.bullets[i]);
            r.game.bullets == p.game.bullets[i := b] &&
            (OutOfBounds(b, l) ==>
               r.removed == p.removed[i := true] && r.game.enemies == p.game.enemies &&
               r.game.score == p.game.score && !r.playerHit &&
               r.game.player == (if b.isPlayer then AfterBulletDestroyed(p.game.player) else p.game.player)) &&
            (r.game.enemies == p.game.enemies ||
               (FirstHit(b, p.game.enemies).Some? &&
                var j := FirstHit(b, p.game.enemies).value;
                p.game.enemies[j].alive &&
                (forall k :: 0 <= k < j ==> !HitsEnemy(b, p.game.enemies[k])) &&
                r.game.enemies == p.game.enemies[j := p.game.enemies[j].(alive := false)] &&
                r.removed == p.removed[i := true] &&
                r.game.player == AfterBulletDestroyed(p.game.player) &&
                r.game.score == p.game.score + KillScore))
  {
    FirstHitFromIsFirst(Advanced(p.game.bullets[i]), p.game.enemies, 0);
  }

  /** The fields of a game the bullet pass never touches. */
  predicate SameFrame(a: GameView, b: GameView) {
    a.running == b.running && a.movingRight == b.movingRight &&
    a.lastEnemyMove == b.lastEnemyMove && a.lastEnemyShoot == b.lastEnemyShoot &&
    a.startTime == b.startTime && a.current == b.current && a.previous == b.previous
  }

  /** What the first n turns of a pass p started from g keep true, given a consistent start. */
  ghost predicate PassFacts(g: GameView, p: Pass, n: nat)
    requires |p.removed| == |p.game.bullets| == |g.bullets|
  {
    p.game.player.shots == RemainingPlayer(p.game.bullets, p.removed) &&
    CounterInRange(p.game.player) &&
    (forall k :: 0 <= k < |g.bullets| ==> p.game.bullets[k].isPlayer == g.bullets[k].isPlayer) &&
    (forall k :: n <= k < |g.bullets| ==> !p.removed[k]) &&
    p.game.score + KillScore * AliveCount(p.game.enemies) == g.score + KillScore * AliveCount(g.enemies) &&
    SameFrame(p.game, g)
  }

  lemma ResolveKeepsFacts(g: GameView, p: Pass, l: Layout, i: nat)
    requires |p.removed| == |p.game.bullets| == |g.bullets| && i < |g.bullets|
    requires PassFacts(g, p, i)
    ensures PassFacts(g, ResolveBullet(p, i, l), i + 1)
  {
    var b := Advanced(p.game.bullets[i]);
    var bs := p.game.bullets[i := b];
    RemainingSameOwner(p.game.bullets, p.removed, i, b);
    ResolveBulletEffect(p, i, l);
    if OutOfBounds(b, l) {
      RemainingMark(bs, p.removed, i);
    } else if b.isPlayer && FirstHit(b, p.game.enemies).Some? {
      RemainingMark(bs, p.removed, i);
      AliveCountKill(p.game.enemies, FirstHit(b, p.game.enemies).value);
    }
  }

  /** Before any bullet has had its turn, the facts hold trivially. */
  lemma PassStartFacts(g: GameView, l: Layout)
    requires Consistent(g)
    ensures PassFacts(g, PassUpTo(g, l, 0), 0)
  {
    RemainingNoneRemoved(g.bullets);
    assert PassUpTo(g, l, 0) == Pass(g, NoneRemoved(|g.bullets|), false);
  }

  lemma {:induction false} PassKeepsFacts(g: GameView, l: Layout, n: nat)
    requires Consistent(g) && n <= |g.bullets|
    ensures PassFacts(g, PassUpTo(g, l, n), n)
  {
    if n == 0 {
      PassStartFacts(g, l);
    } else {
      PassKeepsFacts(g, l, n - 1);
      var p := PassUpTo(g, l, n - 1);
      var q := PassUpTo(g, l, n);
      PassStep(g, l, n);
      if p.playerHit {
        assert q == p;
        assert PassFacts(g, p, n);
      } else {
        ResolveKeepsFacts(g, p, l, n - 1);
        assert q == ResolveBullet(p, n - 1, l);
      }
    }
  }

  /** The bullets that remain after a completed pass. */
  function Survivors(p: Pass): seq<BulletView>
    requires |p.removed| == |p.game.bullets|
  {
    Kept(p.game.bullets, p.removed)
  }

  /**
   * A pass that no player hit interrupts keeps the counter equal to the number of player
   * bullets left in flight, and raises the score by exactly KillScore for every enemy it killed.
   */
  lemma BulletPassConsistent(g: GameView, l: Layout)
    requires Consistent(g)
    ensures var p := BulletPass(g, l);
            Consistent(p.game.(bullets := Survivors(p))) &&
            p.game.score - g.score == KillScore * (AliveCount(g.enemies) - AliveCount(p.game.enemies))
  {
    PassKeepsFacts(g, l, |g.bullets|);
    var p := BulletPass(g, l);
    KeptPlayerBullets(p.game.bullets, p.removed);
  }

  // ---------------------------------------------------------------- the formation

  /** The edge test for one live enemy in the current direction. */
  predicate AtEdge(e: EnemyView, movingRight: bool, l: Layout) {
    if movingRight then e.x + WidthOf(e.kind) >= l.Right() - 1 else e.x <= l.Left() + 1
  }

  /** Whether some live enemy of the list is at the edge, scanning the list in order. */
  predicate EdgeHit(es: seq<EnemyView>, movingRight: bool, l: Layout) {
    es != [] &&
    (EdgeHit(es[..|es| - 1], movingRight, l) || (es[|es| - 1].alive && AtEdge(es[|es| - 1], movingRight, l)))
  }

  /** The scan finds an edge hit exactly when some live enemy is at the edge. */
  lemma {:induction false} EdgeHitIffSomeAtEdge(es: seq<EnemyView>, movingRight: bool, l: Layout)
    ensures EdgeHit(es, movingRight, l) <==> exists k :: 0 <= k < |es| && es[k].alive && AtEdge(es[k], movingRight, l)
  {
    if es != [] {
      var init := es[..|es| - 1];
      EdgeHitIffSomeAtEdge(init, movingRight, l);
      if EdgeHit(init, movingRight, l) {
        var k :| 0 <= k < |init| && init[k].alive && AtEdge(init[k], movingRight, l);
        assert es[k] == init[k];
      }
      if exists k :: 0 <= k < |es| && es[k].alive && AtEdge(es[k], movingRight, l) {
        var k :| 0 <= k < |es| && es[k].alive && AtEdge(es[k], movingRight, l);
        if k < |init| {
          assert init[k] == es[k];
        }
      }
    }
  }

  /** Every live enemy moved by (dx, dy); dead enemies stay where they are. */
  function Shifted(es: seq<EnemyView>, dx: int, dy: int): (r: seq<EnemyView>)
    ensures |r| == |es|
  {
    seq(|es|, k requires 0 <= k < |es| => if es[k].alive then Moved(es[k], dx, dy) else es[k])
  }

  /** One formation step: descend and flip on an edge hit, otherwise shift one column. */
  function FormationStep(es: seq<EnemyView>, movingRight: bool, l: Layout): (seq<EnemyView>, bool) {
    if EdgeHit(es, movingRight, l) then (Shifted(es, 0, 1), !movingRight)
    else (Shifted(es, if movingRight then 1 else -1, 0), movingRight)
  }

  /**
   * The formation moves as one rigid body by a single displacement (dx, dy) that is either a
   * descent (0, 1) or a one-column shift (±1, 0), never both. It descends exactly when some live
   * enemy is at the edge for the current direction, and the direction flips exactly when it
   * descends; a shift goes in the current direction. Dead enemies do not move, and nobody's
   * type or liveness changes.
   */
  lemma FormationMovesRigidly(es: seq<EnemyView>, movingRight: bool, l: Layout) returns (dx: int, dy: int)
    ensures (dx, dy) == (0, 1) || (dx, dy) == (1, 0) || (dx, dy) == (-1, 0)
    ensures dy == 1 <==> EdgeHit(es, movingRight, l)
    ensures dy == 0 ==> dx == if movingRight then 1 else -1
    ensures var (es', mr') := FormationStep(es, movingRight, l);
            |es'| == |es| &&
            (mr' != movingRight <==> dy == 1) &&
            forall k :: 0 <= k < |es| ==>
              es'[k].kind == es[k].kind && es'[k].alive == es[k].alive &&
              es'[k].x == es[k].x + (if es[k].alive then dx else 0) &&
              es'[k].y == es[k].y + (if es[k].alive then dy else 0)
  {
    if EdgeHit(es, movingRight, l) {
      dx, dy := 0, 1;
    } else {
      dx, dy := if movingRight then 1 else -1, 0;
    }
  }

  /** The formation step when its timer has run out; otherwise nothing happens. */
  function EnemiesPhase(g: GameView, l: Layout, now: int): GameView {
    if now - g.lastEnemyMove >= EnemyMoveDelay then
      var (es, mr) := FormationStep(g.enemies, g.movingRight, l);
      g.(enemies := es, movingRight := mr, lastEnemyMove := now)
    else g
  }

  // ---------------------------------------------------------------- enemy fire

  /** The live enemies, in list order. */
  function AliveEnemies(es: seq<EnemyView>): (r: seq<EnemyView>)
    ensures |r| == AliveCount(es)
  {
    if es == [] then []
    else AliveEnemies(es[..|es| - 1]) + (if es[|es| - 1].alive then [es[|es| - 1]] else [])
  }

  /** Each of the live enemies collected is a live member of the list. */
  lemma {:induction false} AliveEnemiesAreAlive(es: seq<EnemyView>)
    ensures forall k :: 0 <= k < |AliveEnemies(es)| ==> AliveEnemies(es)[k].alive && AliveEnemies(es)[k] in es
  {
    if es != [] {
      var init := es[..|es| - 1];
      AliveEnemiesAreAlive(init);
      var r := AliveEnemies(es);
      forall k | 0 <= k < |r|
        ensures r[k].alive && r[k] in es
      {
        if k < |AliveEnemies(init)| {
          assert r[k] == AliveEnemies(init)[k];
          assert r[k] in init;
        }
      }
    }
  }

  /** The bullet an enemy fires: below its middle column (width halved, rounded down). */
  function ShotFrom(e: EnemyView): BulletView {
    BulletView(e.x + WidthOf(e.kind) / 2, e.y + 1, false, true)
  }

  /** When the shot timer has run out, one randomly chosen live enemy fires (if any is alive) and the timer restarts. */
  function ShootPhase(g: GameView, now: int, draw: nat): GameView {
    if now - g.lastEnemyShoot >= EnemyShootDelay then Fired(g, draw).(lastEnemyShoot := now)
    else g
  }

  /** One randomly chosen live enemy (if any is alive) adds its shot to the end of the bullet list. */
  function Fired(g: GameView, draw: nat): GameView {
    var alive := AliveEnemies(g.enemies);
    if |alive| > 0 then g.(bullets := g.bullets + [ShotFrom(alive[draw % |alive|])]) else g
  }

  /**
   * Enemy fire adds at most one bullet, at the end of the list: an active enemy bullet below the
   * middle of some live enemy. With no live enemy it adds nothing. Nothing but the bullet list
   * and the shot timer changes.
   */
  lemma ShootAtMostOne(g: GameView, now: int, draw: nat)
    ensures var r := ShootPhase(g, now, draw);
            r.enemies == g.enemies && r.player == g.player && r.score == g.score &&
            (r.bullets == g.bullets ||
              (|r.bullets| == |g.bullets| + 1 && r.bullets[..|g.bullets|] == g.bullets &&
               var b := r.bullets[|g.bullets|];
               !b.isPlayer && b.active &&
               exists e :: e in g.enemies && e.alive && b == ShotFrom(e))) &&
            (AliveCount(g.enemies) == 0 ==> r.bullets == g.bullets)
  {
    var r := ShootPhase(g, now, draw);
    if r.bullets != g.bullets {
      var alive := AliveEnemies(g.enemies);
      var e := alive[draw % |alive|];
      AliveEnemiesAreAlive(g.enemies);
      assert e in g.enemies && e.alive;
      assert r.bullets[..|g.bullets|] == g.bullets;
    }
  }

  lemma ShootConsistent(g: GameView, now: int, draw: nat)
    requires Consistent(g)
    ensures Consistent(ShootPhase(g, now, draw))
  {
    var alive := AliveEnemies(g.enemies);
    if now - g.lastEnemyShoot >= EnemyShootDelay && |alive| > 0 {
      PlayerBulletsAppend(g.bullets, ShotFrom(alive[draw % |alive|]));
    }
  }

  // ---------------------------------------------------------------- the win test and the tick

  predicate AllDead(es: seq<EnemyView>) {
    forall k :: 0 <= k < |es| ==> !es[k].alive
  }

  lemma {:induction false} AliveCountAll(es: seq<EnemyView>)
    requires forall k :: 0 <= k < |es| ==> es[k].alive
    ensures AliveCount(es) == |es|
  {
    if es != [] {
      AliveCountAll(es[..|es| - 1]);
    }
  }

  /** The win test holds exactly when no enemy is alive. */
  lemma {:induction false} AllDeadIffNoneAlive(es: seq<EnemyView>)
    ensures AllDead(es) <==> AliveCount(es) == 0
  {
    if es != [] {
      AllDeadIffNoneAlive(es[..|es| - 1]);
      assert AllDead(es) <==> AllDead(es[..|es| - 1]) && !es[|es| - 1].alive;
    }
  }

  /**
   * The simulation step of a tick: the bullet pass (a player hit ends the tick with the loss
   * screen: restart or stop), removal of the spent bullets, the formation step, enemy fire and
   * the win test (restart or stop).
   */
  function UpdateSpec(g: GameView, l: Layout, now: int, draw: nat, restartOnLoss: bool, restartOnWin: bool): GameView {
    var p := BulletPass(g, l);
    if p.playerHit then EndScreen(p.game, l, now, restartOnLoss)
    else
      var g2 := WorldStep(p, l, now, draw);
      if AliveCount(g2.enemies) == 0 then EndScreen(g2, l, now, restartOnWin) else g2
  }

  /** The answer to a game-over or victory screen: R restarts the game, anything else stops it. */
  function EndScreen(g: GameView, l: Layout, now: int, restart: bool): GameView {
    if restart then Restarted(g, l, now) else g.(running := false)
  }

  /** After a bullet pass the player survived: the spent bullets go, the formation steps, the enemies fire. */
  function WorldStep(p: Pass, l: Layout, now: int, draw: nat): GameView
    requires |p.removed| == |p.game.bullets|
  {
    ShootPhase(EnemiesPhase(p.game.(bullets := Survivors(p)), l, now), now, draw)
  }

  /**
   * The simulation step keeps the shot counter's invariant unless the loss screen ended the
   * game; in particular, whenever the game is still running afterwards the invariant holds.
   */
  lemma UpdateConsistent(g: GameView, l: Layout, now: int, draw: nat, restartOnLoss: bool, restartOnWin: bool)
    requires Consistent(g)
    ensures var r := UpdateSpec(g, l, now, draw, restartOnLoss, restartOnWin);
            (!BulletPass(g, l).playerHit || restartOnLoss ==> Consistent(r)) &&
            (r.running ==> Consistent(r))
  {
    BulletPassConsistent(g, l);
    var p := BulletPass(g, l);
    if !p.playerHit {
      var g1 := p.game.(bullets := Survivors(p));
      ShootConsistent(EnemiesPhase(g1, l, now), now, draw);
    }
  }

  /** A restart, after a win or a loss, yields a fresh game: score 0, 8 live enemies, no bullets, the player centred. */
  lemma RestartIsFresh(g: GameView, l: Layout, now: int)
    ensures var r := Restarted(g, l, now);
            r == Initial(l, now).(running := g.running) &&
            r.score == 0 && r.movingRight && r.bullets == [] && |r.enemies| == 8 &&
            AliveCount(r.enemies) == 8 && r.player == InitialPlayer(l) && Consistent(r) &&
            r.current == Blank(l.width, l.height) && r.previous == Blank(l.width, l.height)
  {
    AliveCountAll(InitialEnemies(l));
  }
}
