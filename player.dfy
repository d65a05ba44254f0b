/**
 * The player's ship: a position clamped to the play area, and a counter of its shots in
 * flight capped at MaxBullets.
 */
module PlayerEntity {
  import opened Screen
  import opened RenderBuffer

  const MaxBullets: int := 3
  const PlayerSymbol: char := 'A'
  const PlayerColor: Color := Cyan

  /** The abstract value of the player: position and in-flight shot counter. */
  datatype PlayerView = PlayerView(x: int, y: int, shots: int)

  /** One step left, refused when it would reach the left border column or beyond. */
  function StepLeft(p: PlayerView, left: int): PlayerView {
    if p.x > left + 1 then p.(x := p.x - 1) else p
  }

  /** One step right, refused when it would reach the right border column or beyond. */
  function StepRight(p: PlayerView, right: int): PlayerView {
    if p.x < right - 1 then p.(x := p.x + 1) else p
  }

  predicate HasCapacity(p: PlayerView) {
    p.shots < MaxBullets
  }

  /** The counter after a shot: incremented only while there is capacity. */
  function AfterShot(p: PlayerView): PlayerView {
    if HasCapacity(p) then p.(shots := p.shots + 1) else p
  }

  /** The counter after one of the player's bullets is gone: decremented only while positive. */
  function AfterBulletDestroyed(p: PlayerView): PlayerView {
    if p.shots > 0 then p.(shots := p.shots - 1) else p
  }

  /** The counter is within its bounds. */
  predicate CounterInRange(p: PlayerView) {
    0 <= p.shots <= MaxBullets
  }

  /** The ship is on a column strictly between the two border columns. */
  predicate InLane(p: PlayerView, left: int, right: int) {
    left + 1 <= p.x <= right - 1
  }

  datatype Steer = GoLeft | GoRight

  /** The player after a sequence of steering commands, applied in order. */
  function SteerAll(p: PlayerView, moves: seq<Steer>, left: int, right: int): PlayerView
    decreases |moves|
  {
    if moves == [] then p
    else
      var q := if moves[0] == GoLeft then StepLeft(p, left) else StepRight(p, right);
      SteerAll(q, moves[1..], left, right)
  }

  /** A step left moves by one column exactly when the ship is right of the lane's first column. */
  lemma StepLeftExact(p: PlayerView, left: int)
    ensures StepLeft(p, left).x == p.x - 1 <==> p.x > left + 1
    ensures StepLeft(p, left).x != p.x - 1 ==> StepLeft(p, left) == p
    ensures StepLeft(p, left).y == p.y && StepLeft(p, left).shots == p.shots
  {
  }

  /** A step right moves by one column exactly when the ship is left of the lane's last column. */
  lemma StepRightExact(p: PlayerView, right: int)
    ensures StepRight(p, right).x == p.x + 1 <==> p.x < right - 1
    ensures StepRight(p, right).x != p.x + 1 ==> StepRight(p, right) == p
    ensures StepRight(p, right).y == p.y && StepRight(p, right).shots == p.shots
  {
  }

  /** Inside the lane, a step right undoes a step left that was taken. */
  lemma LeftThenRight(p: PlayerView, left: int, right: int)
    requires InLane(p, left, right) && p.x > left + 1
    ensures StepRight(StepLeft(p, left), right) == p
  {
  }

  /** No sequence of steering commands takes the ship out of the lane, changes its row or its counter. */
  lemma {:induction false} SteeringStaysInLane(p: PlayerView, moves: seq<Steer>, left: int, right: int)
    requires InLane(p, left, right)
    ensures InLane(SteerAll(p, moves, left, right), left, right)
    ensures SteerAll(p, moves, left, right).y == p.y
    ensures SteerAll(p, moves, left, right).shots == p.shots
    decreases |moves|
  {
    if moves != [] {
      var q := if moves[0] == GoLeft then StepLeft(p, left) else StepRight(p, right);
      SteeringStaysInLane(q, moves[1..], left, right);
    }
  }

  /** Shooting and losing bullets keep the counter within [0, MaxBullets]. */
  lemma CounterStaysInRange(p: PlayerView)
    requires CounterInRange(p)
    ensures CounterInRange(AfterShot(p)) && CounterInRange(AfterBulletDestroyed(p))
    ensures AfterShot(p).shots == p.shots + 1 <==> HasCapacity(p)
    ensures AfterBulletDestroyed(p).shots == p.shots - 1 <==> p.shots > 0
  {
  }

  /** From an empty counter, three shots fill it and a fourth is refused. */
  lemma FourthShotRefused(p: PlayerView)
    requires p.shots == 0
    ensures var q := AfterShot(AfterShot(AfterShot(p)));
            q.shots == MaxBullets && !HasCapacity(q) && AfterShot(q) == q
  {
  }

  class Player {
    var x: int
    var y: int
    var currentBullets: int

    function View(): PlayerView
      reads this
    {
      PlayerView(x, y, currentBullets)
    }

    /** A new ship at (startX, startY) with no shots in flight. */
    constructor (startX: int, startY: int)
      ensures View() == PlayerView(startX, startY, 0)
    {
      x := startX;
      y := startY;
      currentBullets := 0;
    }

    method MoveLeft(gameAreaLeft: int)
      modifies this
      ensures View() == StepLeft(old(View()), gameAreaLeft)
    {
      if x > gameAreaLeft + 1 {
        x := x - 1;
      }
    }

    method MoveRight(gameAreaRight: int)
      modifies this
      ensures View() == StepRight(old(View()), gameAreaRight)
    {
      if x < gameAreaRight - 1 {
        x := x + 1;
      }
    }

    /** The counter allows another shot exactly when the abstract ship has capacity. */
    predicate CanShoot()
      reads this
      ensures CanShoot() <==> HasCapacity(View())
    {
      currentBullets < MaxBullets
    }

    method Shoot()
      modifies this
      ensures View() == AfterShot(old(View()))
    {
      if CanShoot() {
        currentBullets := currentBullets + 1;
      }
    }

    method BulletDestroyed()
      modifies this
      ensures View() == AfterBulletDestroyed(old(View()))
    {
      if currentBullets > 0 {
        currentBullets := currentBullets - 1;
      }
    }

    /** Writes the ship's glyph at its own position, and nothing else. */
    method Render(rs: RenderState)
      requires rs.Valid()
      modifies rs, rs.chars, rs.colors
      ensures rs.Valid()
      ensures rs.grid == SetCell(old(rs.grid), x, y, Cell(PlayerSymbol, PlayerColor))
    {
      rs.SetPixel(x, y, PlayerSymbol, PlayerColor);
    }
  }
}
