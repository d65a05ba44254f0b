# SpaceAINet game core in Dafny

SpaceAINet is a Space-Invaders game for the terminal, written in C#. This project models its
deterministic simulation and rendering core:

- the player's ship, which steers inside the play area and has at most three shots in flight;
- the formation of eight enemies, which moves every 500 ms and fires every 2 s;
- the bullets, one row of travel per tick, and their hit tests;
- the tick of `GameManager`: input, the bullet pass, removal of spent bullets, the formation
  step, enemy fire, the win and loss tests and the restart;
- the double-buffered renderer: the border, the status line, the sprites, the cell diff written
  to the console and the buffer swap.

The model has two layers:

- **Classes.** `Player`, `Enemy`, `Bullet`, `RenderState` and `GameManager` keep the C# fields
  and update them in place. A `RenderState` holds its two buffers as `array2`s.
- **Values.** `PlayerView`, `EnemyView`, `BulletView` and `GameView` are the same state as
  values. Modules `Rules`, `Frame`, `Terminal` and `GameLoop` define every step as a function on
  these values.

Every `GameManager` method takes the abstract state `v` as a ghost parameter. It requires
`Models(v)` and ensures `Models(Spec(v, ...))`, where `Spec` is the function for that step. The
lemmas state what the game promises about those functions. Some examples:

- the shot counter always equals the number of player bullets in flight, and never exceeds three;
- a bullet kills at most one enemy, the first live one it hits, and scores exactly 10;
- the formation moves as one rigid body and turns exactly when a live enemy reaches the edge;
- enemy fire adds at most one bullet;
- a terminal that showed the previous frame shows exactly the new frame after the diff, and
  the diff holds exactly the changed cells;
- the `D4`/`D2` number formatting reads back as the number;
- a restart yields a fresh game.

The game's impure inputs become explicit parameters of each tick, collected in `TickInput`:

- the clock, as `now` in milliseconds;
- the key read, if any;
- the random draw, as a natural number;
- the answers the loss and win screens would get.

## Model

| member | source | states |
|---|---|---|
| PlayerEntity.Player.constructor | src/SpaceAINet.Console/Player.cs:12-16 | a new ship stands at the given position with no shots in flight |
| PlayerEntity.Player.MoveLeft | src/SpaceAINet.Console/Player.cs:18-22 | the ship's new value is StepLeft of the old: one column left only while x > left + 1 |
| PlayerEntity.Player.MoveRight | src/SpaceAINet.Console/Player.cs:24-28 | the ship's new value is StepRight of the old: one column right only while x < right - 1 |
| PlayerEntity.Player.CanShoot | src/SpaceAINet.Console/Player.cs:30-33 | the counter allows a shot exactly when the ship has capacity, the guard that CounterStaysInRange and FourthShotRefused are about |
| PlayerEntity.Player.Shoot | src/SpaceAINet.Console/Player.cs:35-39 | the counter rises by one only while it is below MaxBullets |
| PlayerEntity.Player.BulletDestroyed | src/SpaceAINet.Console/Player.cs:41-45 | the counter falls by one only while it is positive |
| PlayerEntity.Player.Render | src/SpaceAINet.Console/Player.cs:47-50 | the buffer changes only at the ship's cell, which gets 'A' in cyan |
| PlayerEntity.StepLeftExact | src/SpaceAINet.Console/Player.cs:18-22 | a left step moves exactly one column if and only if x > left + 1, and otherwise nothing changes |
| PlayerEntity.StepRightExact | src/SpaceAINet.Console/Player.cs:24-28 | a right step moves exactly one column if and only if x < right - 1, and otherwise nothing changes |
| PlayerEntity.LeftThenRight | src/SpaceAINet.Console/Player.cs:18-28 | inside the lane, a right step undoes a left step that moved |
| PlayerEntity.SteeringStaysInLane | src/SpaceAINet.Console/Player.cs:18-28 | no sequence of left/right steps leaves the lane [left + 1, right - 1] or changes the row or the counter |
| PlayerEntity.CounterStaysInRange | src/SpaceAINet.Console/Player.cs:30-45 | shooting and losing a bullet keep the counter in [0, 3]; each changes it exactly when its guard holds |
| PlayerEntity.FourthShotRefused | src/SpaceAINet.Console/Player.cs:7-39 | from zero, three shots fill the counter and a fourth is refused |
| BulletEntity.Bullet.constructor | src/SpaceAINet.Console/Bullet.cs:12-17 | a new bullet is active, at the given cell, with the given owner |
| BulletEntity.Bullet.Update | src/SpaceAINet.Console/Bullet.cs:19-25 | the bullet's new value is Advanced of the old one |
| BulletEntity.AdvanceDirection | src/SpaceAINet.Console/Bullet.cs:19-25 | an update moves a player bullet up one row and an enemy bullet down one row; column, owner and activity stay |
| BulletEntity.FlightIsStraight | src/SpaceAINet.Console/Bullet.cs:19-25 | after n updates a bullet is exactly n rows further in its direction, in the same column |
| BulletEntity.EnemyBulletReachesPlayer | src/SpaceAINet.Console/Bullet.cs:49-55 | an enemy bullet d rows above the ship in its column hits on the d-th update and on no earlier one |
| BulletEntity.Bullet.Render | src/SpaceAINet.Console/Bullet.cs:27-33 | the buffer becomes PaintBullet of the old buffer: the glyph at the bullet's cell when active |
| BulletEntity.BulletPaintCells | src/SpaceAINet.Console/Bullet.cs:27-33 | an inactive bullet paints nothing; an active one changes exactly its own in-grid cell, to '^' or 'v' in white |
| BulletEntity.Bullet.CheckCollisionEnemy | src/SpaceAINet.Console/Bullet.cs:35-47 | true if and only if the bullet is an active player bullet and the enemy is alive, on the enemy's row, within [x, x + width) |
| BulletEntity.Bullet.CheckCollisionPlayer | src/SpaceAINet.Console/Bullet.cs:49-55 | the test with its early return for inactive and player bullets is the hit relation HitsPlayer, the one EnemyBulletReachesPlayer and NeverHitsOwnSide are about |
| BulletEntity.SymbolFor | src/SpaceAINet.Console/Bullet.cs:9 | a bullet's glyph is '^' or 'v', never blank, and '^' exactly for the player's |
| BulletEntity.Bullet.Symbol | src/SpaceAINet.Console/Bullet.cs:9 | the glyph tells the owner apart: '^' exactly for a player bullet, 'v' exactly for an enemy bullet |
| BulletEntity.NeverHitsOwnSide | src/SpaceAINet.Console/Bullet.cs:35-55 | only player bullets hit enemies, only enemy bullets hit the player, and no bullet tests as both |
| EnemyEntity.SymbolOf | src/SpaceAINet.Console/Enemy.cs:18-35 | every glyph has no blank character, so a live enemy covers all its cells; it is 3 characters for the bottom row and 2 for the top row |
| EnemyEntity.ColorOf | src/SpaceAINet.Console/Enemy.cs:18-35 | an enemy is red or dark yellow, and dark yellow exactly for the bottom row |
| EnemyEntity.WidthOf | src/SpaceAINet.Console/Enemy.cs:54 | the width is the glyph's length: 3 for the bottom row, 2 for the top row |
| EnemyEntity.Enemy.constructor | src/SpaceAINet.Console/Enemy.cs:12-36 | a new enemy is alive, of the given type, at the given cell |
| EnemyEntity.Enemy.Move | src/SpaceAINet.Console/Enemy.cs:38-42 | the enemy is displaced by (dx, dy); type and liveness are kept |
| EnemyEntity.Enemy.Render | src/SpaceAINet.Console/Enemy.cs:44-52 | the buffer becomes PaintEnemy of the old buffer |
| EnemyEntity.EnemyPaintCells | src/SpaceAINet.Console/Enemy.cs:44-52 | a dead enemy paints nothing; a live one changes exactly its in-grid cells (x + i, y), i < width, to the glyph's i-th character in its colour |
| RenderBuffer.RenderState.constructor | src/SpaceAINet.Console/RenderState.cs:10-26 | a new buffer has the given size and every cell is a blank in black |
| RenderBuffer.RenderState.SetPixel | src/SpaceAINet.Console/RenderState.cs:28-35 | an in-buffer write sets exactly that cell, and an out-of-buffer write changes nothing |
| Screen.SetCellAt | src/SpaceAINet.Console/RenderState.cs:28-35 | a clipped write changes the one cell written, if it is inside the grid, and no other |
| RenderBuffer.RenderState.GetChar | src/SpaceAINet.Console/RenderState.cs:37-42 | the character of the cell, or a space outside the buffer |
| RenderBuffer.RenderState.GetColor | src/SpaceAINet.Console/RenderState.cs:44-49 | the colour of the cell, or black outside the buffer |
| RenderBuffer.RenderState.Clear | src/SpaceAINet.Console/RenderState.cs:51-61 | every cell becomes a blank in black; the size is kept |
| Screen.PaintTextAt | src/SpaceAINet.Console/Enemy.cs:48-51 | writing a text left to right changes exactly the in-grid cells (x + i, y), i < length, to the i-th character |
| Game.GameManager.constructor | src/SpaceAINet.Console/GameManager.cs:25-49 | a new manager models the initial game: play area right = width - 2 and bottom = height - 2, blank buffers, all timers at `now` |
| Game.SpawnFormation | src/SpaceAINet.Console/GameManager.cs:51-88 | new ship objects and eight distinct new enemy objects whose values are the initial ship and formation |
| Game.SpawnTopRow | src/SpaceAINet.Console/GameManager.cs:62-79 | five distinct new enemy objects whose values are the first five of the initial formation |
| Game.SpawnBottomRow | src/SpaceAINet.Console/GameManager.cs:81-87 | three more distinct new enemy objects after the top row, whose values complete the initial formation |
| Game.GameManager.InitializeGame | src/SpaceAINet.Console/GameManager.cs:51-88 | a new ship and formation with the initial values, and no bullets |
| Rules.InitialFormation | src/SpaceAINet.Console/GameManager.cs:62-87 | eight live enemies: five top-row ones six columns apart on row top + 2 and three bottom-row ones eight apart on row top + 4; no two overlap |
| Format.TruncDivRoundsTowardZero | src/SpaceAINet.Console/GameManager.cs:54 | C#'s integer division rounds toward zero: the quotient has a's sign and the remainder lies on a's side within b |
| Rules.InitialConsistent | src/SpaceAINet.Console/GameManager.cs:51-60 | a new game satisfies the shot counter's invariant |
| Game.GameManager.RunGameLoop | src/SpaceAINet.Console/GameManager.cs:90-109 | the final state and all terminal writes are those of Run over the inputs: ticks in order while the game runs and input lasts; after each tick the delay slept is TickDelay of the game's speed |
| Game.GameManager.Tick | src/SpaceAINet.Console/GameManager.cs:92-96 | one loop pass: the run on the inputs is this tick's writes followed by the run on the rest from the new state |
| Game.GameManager.Simulate | src/SpaceAINet.Console/GameManager.cs:94-95 | input then the simulation step: the new state is UpdateSpec of HandleKey of the old |
| GameLoop.RunStep | src/SpaceAINet.Console/GameManager.cs:92-96 | a running loop with input left does one tick and then runs on the remaining input |
| GameLoop.RunFinishes | src/SpaceAINet.Console/GameManager.cs:92 | once the game stops or input runs out, the run has ended with the writes so far |
| GameLoop.StoppedStaysStopped | src/SpaceAINet.Console/GameManager.cs:92 | a stopped game never changes again and writes nothing |
| GameLoop.TickConsistent | src/SpaceAINet.Console/GameManager.cs:92-96 | a tick keeps the shot counter's invariant whenever the game still runs afterwards |
| GameLoop.RunConsistent | src/SpaceAINet.Console/GameManager.cs:90-109 | over any run, every running state has the counter equal to the player bullets in flight, at most three |
| Rules.TickDelay | src/SpaceAINet.Console/GameManager.cs:99-105 | the delay is one of 50, 75 and 100 ms: 75 at speed 2, 50 at speed 3 and 100 for every other speed |
| Rules.FasterSpeedSleepsLess | src/SpaceAINet.Console/GameManager.cs:99-105 | speeds 1, 2 and 3 are slow, medium and fast: a higher one of them sleeps strictly less, and any other speed sleeps as long as the slow one |
| Game.GameManager.HandleInput | src/SpaceAINet.Console/GameManager.cs:111-144 | the new state is HandleKey of the old; a screenshot is asked for exactly on S |
| Game.GameManager.Shoot | src/SpaceAINet.Console/GameManager.cs:127-133 | the spacebar's effect: with capacity, one new player bullet above the ship, counted |
| Rules.SpacebarFires | src/SpaceAINet.Console/GameManager.cs:127-133 | with capacity, the spacebar appends exactly the bullet (x, y - 1) and adds one to the counter; without capacity nothing changes |
| Rules.HandleKeyConsistent | src/SpaceAINet.Console/GameManager.cs:111-144 | no key breaks the shot counter's invariant |
| Game.GameManager.UpdateGame | src/SpaceAINet.Console/GameManager.cs:146-223 | the new state is UpdateSpec of the old: pass, loss test, removals, formation, fire, win test |
| Rules.UpdateConsistent | src/SpaceAINet.Console/GameManager.cs:146-223 | the simulation step keeps the counter's invariant unless the loss screen stopped the game; it always holds while the game runs |
| Game.GameManager.ResolveBullets | src/SpaceAINet.Console/GameManager.cs:149-197 | the objects end in the pass's state; the hit flag is the pass's; without a hit the list collected is exactly the marked bullets, in order |
| Game.GameManager.BulletTurns | src/SpaceAINet.Console/GameManager.cs:151-197 | the turns stop at the end of the list or at a player hit, and the state is the pass after the turns taken |
| Game.GameManager.Turn | src/SpaceAINet.Console/GameManager.cs:153-196 | one bullet's turn moves the objects to the next pass state and adds the bullet to the list exactly when the turn marks it |
| Game.GameManager.ResolveBullet | src/SpaceAINet.Console/GameManager.cs:153-196 | the objects end in ResolveBullet's state; the bullet is marked exactly when it is to be removed; the hit flag is the turn's |
| Rules.ResolveBulletEffect | src/SpaceAINet.Console/GameManager.cs:153-178 | a turn advances the bullet; off the area it is marked and frees capacity if it is the player's; otherwise at most the first live enemy hit dies, with the bullet marked, the counter down and the score up by 10 |
| Game.GameManager.HitEnemy | src/SpaceAINet.Console/GameManager.cs:165-178 | the bullet is to be removed exactly when it hits some live enemy; the state becomes Strike: the first such enemy dies, capacity freed, score + 10 |
| Game.GameManager.AddBullet | src/SpaceAINet.Console/GameManager.cs:130 | the new bullet is appended at the end of the list, and the state gains its value as the last bullet |
| Game.GameManager.FindVictim | src/SpaceAINet.Console/GameManager.cs:167-170 | the search finds the first live enemy the bullet hits, in list order |
| Rules.FirstHitFromIsFirst | src/SpaceAINet.Console/GameManager.cs:167-177 | the search returns the least index whose enemy is hit, or reports that none is hit |
| Rules.PassStopsAtHit | src/SpaceAINet.Console/GameManager.cs:182-194 | once a turn hits the player, later bullets get no turn |
| Rules.PassUntouched | src/SpaceAINet.Console/GameManager.cs:151-172 | no bullet is marked for removal before its turn |
| Rules.PassKeepsFacts | src/SpaceAINet.Console/GameManager.cs:151-197 | during the pass the counter equals the unmarked player bullets; owners never change; score + 10 × live enemies is constant |
| Rules.BulletPassConsistent | src/SpaceAINet.Console/GameManager.cs:151-203 | after a pass and its removals the counter equals the player bullets left; the score rose by 10 per enemy killed |
| Rules.AliveCountKill | src/SpaceAINet.Console/GameManager.cs:171 | killing a live enemy lowers the live count by exactly one |
| Game.PickedAfterTurn | src/SpaceAINet.Console/GameManager.cs:158-172 | after bullet i's turn the collected list gained bullet i exactly when the turn marked it |
| Game.PassComplete | src/SpaceAINet.Console/GameManager.cs:151-197 | when the turns stop the pass is complete, and without a hit the list collected is its removals |
| Lists.PickedMarks | src/SpaceAINet.Console/GameManager.cs:149-172 | the collected list has no duplicates and holds a bullet exactly when its flag is set |
| Game.GameManager.RemoveBullets | src/SpaceAINet.Console/GameManager.cs:199-203 | the bullets left are the survivors of the pass, in order; no new bullet appears |
| Lists.WithoutRemovesOne | src/SpaceAINet.Console/GameManager.cs:202 | removal of a present element cuts out exactly its first occurrence, so the multiset loses one copy of it and the length falls by one; removal of an absent element changes nothing |
| Lists.WithoutDropsFirst | src/SpaceAINet.Console/GameManager.cs:202 | the removed position holds the element, no earlier position does, and the result is the list with that position cut out |
| Lists.WithoutMultiset | src/SpaceAINet.Console/GameManager.cs:202 | the elements left are those of the list with one copy of the element taken out, or all of them when it is absent |
| Lists.WithoutAbsent | src/SpaceAINet.Console/GameManager.cs:202 | removing an element that does not occur leaves the list unchanged |
| Lists.WithoutExcluding | src/SpaceAINet.Console/GameManager.cs:200-203 | removing the collected bullets one by one from a list without duplicates keeps exactly the others, in order |
| Lists.ExcludingMembers | src/SpaceAINet.Console/GameManager.cs:200-203 | an element is kept if and only if it is in the list and not collected |
| Game.ExcludingKeepsViews | src/SpaceAINet.Console/GameManager.cs:200-203 | the bullet objects left have the values of the unmarked bullets, in order |
| Game.GameManager.AfterPass | src/SpaceAINet.Console/GameManager.cs:199-222 | after a pass without a hit: removals, formation step, fire, then the victory screen's answer when no enemy is alive |
| Game.GameManager.AdvanceWorld | src/SpaceAINet.Console/GameManager.cs:199-209 | the state becomes WorldStep of the pass: survivors, formation step, enemy fire |
| Game.GameManager.WinCheck | src/SpaceAINet.Console/GameManager.cs:211-222 | when no enemy is alive the state is the victory screen's outcome; otherwise it is unchanged |
| Game.GameManager.AllEnemiesDead | src/SpaceAINet.Console/GameManager.cs:212 | the scan, which stops at the first live enemy, answers true exactly when the live count of the formation is zero |
| Rules.AllDeadIffNoneAlive | src/SpaceAINet.Console/GameManager.cs:212 | the win test holds if and only if the live count is zero |
| Game.GameManager.EndGame | src/SpaceAINet.Console/GameManager.cs:214-221 | an end screen answered R restarts the game; any other answer stops it |
| Game.GameManager.UpdateEnemies | src/SpaceAINet.Console/GameManager.cs:225-270 | once 500 ms have passed since the last move the formation steps and the timer restarts; otherwise nothing changes |
| Game.GameManager.EdgeReached | src/SpaceAINet.Console/GameManager.cs:232-247 | the scan's answer is EdgeHit: some live enemy is at the edge for the current direction |
| Rules.EdgeHitIffSomeAtEdge | src/SpaceAINet.Console/GameManager.cs:234-247 | the scan finds an edge hit if and only if some live enemy is at the edge |
| Game.GameManager.StepFormation | src/SpaceAINet.Console/GameManager.cs:249-266 | the formation and direction become FormationStep of the old ones |
| Game.GameManager.Descend | src/SpaceAINet.Console/GameManager.cs:252-265 | every live enemy drops one row and the direction flips |
| Game.GameManager.Shift | src/SpaceAINet.Console/GameManager.cs:256-259 | every live enemy moves one column in the current direction |
| Game.GameManager.MoveAlive | src/SpaceAINet.Console/GameManager.cs:250-260 | every live enemy is moved by (dx, dy) and every dead one stays |
| Rules.FormationMovesRigidly | src/SpaceAINet.Console/GameManager.cs:232-266 | one displacement for all live enemies: (0, 1) exactly on an edge hit, with the direction flipped, else one column in the current direction |
| Game.GameManager.UpdateEnemyShooting | src/SpaceAINet.Console/GameManager.cs:272-289 | once 2 s have passed since the last shot a live enemy fires and the timer restarts; otherwise nothing changes |
| Game.GameManager.Fire | src/SpaceAINet.Console/GameManager.cs:279-285 | the live enemy the draw picks appends a bullet below its middle; with none alive nothing changes |
| Game.GameManager.CollectAlive | src/SpaceAINet.Console/GameManager.cs:280 | the list collected holds the live enemies, in order |
| Rules.AliveEnemiesAreAlive | src/SpaceAINet.Console/GameManager.cs:280 | each enemy collected is alive and is a member of the formation |
| Rules.ShootAtMostOne | src/SpaceAINet.Console/GameManager.cs:277-288 | fire adds at most one active enemy bullet, at the end, below a live enemy's middle; nothing with no live enemy; the enemies, the ship and the score stay |
| Rules.ShootConsistent | src/SpaceAINet.Console/GameManager.cs:283-284 | enemy fire keeps the shot counter's invariant |
| Game.GameManager.Render | src/SpaceAINet.Console/GameManager.cs:291-338 | the writes and the new state are RenderSpec's: frame painted, changed cells emitted, buffers swapped |
| GameLoop.RenderShowsFrame | src/SpaceAINet.Console/GameManager.cs:291-338 | a terminal that showed the previous frame then shows exactly the new frame; the writes are exactly the changed cells; the new frame becomes the previous one |
| GameLoop.SameFrameWritesNothing | src/SpaceAINet.Console/GameManager.cs:325-330 | repainting an unchanged frame writes nothing |
| Game.GameManager.Repaint | src/SpaceAINet.Console/GameManager.cs:293-332 | the current buffer holds the tick's frame, and the writes are its diff against the previous frame |
| Game.GameManager.PaintFrame | src/SpaceAINet.Console/GameManager.cs:293-313 | the current buffer holds FrameOf the state; nothing else changes |
| Game.GameManager.PaintBackdrop | src/SpaceAINet.Console/GameManager.cs:293-303 | clear, border, status line, ship, in that order |
| Game.GameManager.DrawSprites | src/SpaceAINet.Console/GameManager.cs:305-313 | the enemies, then the bullets, painted over the buffer |
| Game.GameManager.DrawEnemies | src/SpaceAINet.Console/GameManager.cs:305-308 | the enemies painted in list order |
| Game.GameManager.DrawBullets | src/SpaceAINet.Console/GameManager.cs:310-313 | the bullets painted in list order |
| Frame.EnemiesOnlyTouchTheirCells | src/SpaceAINet.Console/GameManager.cs:305-308 | a cell no live enemy covers keeps its content |
| Frame.BulletsOnlyTouchTheirCells | src/SpaceAINet.Console/GameManager.cs:310-313 | a cell no active bullet is on keeps its content |
| Frame.LastBulletShows | src/SpaceAINet.Console/GameManager.cs:310-313 | a cell shows the glyph of the last active bullet on it |
| Frame.ShipShows | src/SpaceAINet.Console/GameManager.cs:303-313 | the ship's cell shows 'A' in cyan unless an enemy or a bullet is drawn over it |
| Frame.FrameBlankElsewhere | src/SpaceAINet.Console/GameManager.cs:291-313 | a cell that is not on the border, the status row, the ship, a live enemy or an active bullet is blank |
| Game.GameManager.EmitChanges | src/SpaceAINet.Console/GameManager.cs:315-332 | the writes are the row-major diff of the current and previous buffers |
| Terminal.DiffExact | src/SpaceAINet.Console/GameManager.cs:315-332 | a write is emitted if and only if it puts the current content at an in-frame cell whose character or colour changed |
| Terminal.RowDiffExact | src/SpaceAINet.Console/GameManager.cs:318-331 | within one row, a write is emitted exactly for each changed column, with its current content |
| Terminal.NoChangeNoOutput | src/SpaceAINet.Console/GameManager.cs:325-330 | identical frames produce no writes |
| Terminal.DiffShowsFrame | src/SpaceAINet.Console/GameManager.cs:315-332 | a terminal that showed the previous frame shows exactly the current frame after the diff |
| Terminal.ApplyConcat | src/SpaceAINet.Console/GameManager.cs:327-329 | writing two batches in sequence is writing their concatenation |
| Game.GameManager.SwapBuffers | src/SpaceAINet.Console/GameManager.cs:334-337 | the buffer just painted becomes the previous one and the other the next to paint into |
| Game.GameManager.DrawBorder | src/SpaceAINet.Console/GameManager.cs:340-364 | the buffer becomes PaintBorder of the old buffer: the top row, the bottom row, then the sides |
| Game.GameManager.DrawBorderRow | src/SpaceAINet.Console/GameManager.cs:342-356 | one border row: left corner, horizontal run, right corner |
| Game.GameManager.DrawSides | src/SpaceAINet.Console/GameManager.cs:358-363 | the vertical glyph at both side columns of every row strictly between the top and the bottom |
| Frame.BorderRowAt | src/SpaceAINet.Console/GameManager.cs:342-356 | a border row paints the in-grid cells from left to right of its row; the right corner wins when the two coincide |
| Frame.HRunAt | src/SpaceAINet.Console/GameManager.cs:344-347 | a run paints exactly the in-grid cells x0 <= x < x1 of its row |
| Frame.SidesAt | src/SpaceAINet.Console/GameManager.cs:358-363 | the sides paint exactly the in-grid cells of both side columns on the rows between |
| Frame.BorderIsOutline | src/SpaceAINet.Console/GameManager.cs:340-364 | when left < right and top < bottom, the border paints exactly the outline: corners, runs and sides in white, all else unchanged |
| Frame.BorderOnlyTouchesOutline | src/SpaceAINet.Console/GameManager.cs:340-364 | whatever the size, no cell off the outline changes |
| Game.GameManager.DrawUI | src/SpaceAINet.Console/GameManager.cs:366-379 | the status line (score D4, whole elapsed seconds D2, shots / 3) is painted, clipped |
| Game.GameManager.WriteStatus | src/SpaceAINet.Console/GameManager.cs:372-378 | the text is written from column left + 2 of row top + 1 until it ends or column right is reached |
| Frame.UiLength | src/SpaceAINet.Console/GameManager.cs:375 | the number of characters written stays left of column right, and is the whole text whenever it fits |
| Frame.UiIsClipped | src/SpaceAINet.Console/GameManager.cs:372-378 | only row top + 1 from column left + 2 changes, never at or beyond column right; those cells show the text in white |
| Format.FormatRoundTrip | src/SpaceAINet.Console/GameManager.cs:369 | a number formatted with k minimum digits reads back as itself and is at least k long |
| Format.DigitsRoundTrip | src/SpaceAINet.Console/GameManager.cs:369 | the decimal digits of n read back as n |
| Format.ValueLeadingZeros | src/SpaceAINet.Console/GameManager.cs:369 | leading zeros do not change the value read |
| Game.GameManager.RestartGame | src/SpaceAINet.Console/GameManager.cs:392-407 | the state becomes Restarted: a fresh game at `now` with both buffers blank; the running flag is kept; all objects are new |
| Game.GameManager.ClearBuffers | src/SpaceAINet.Console/GameManager.cs:401-403 | both buffers become blank |
| Game.GameManager.ResetCounters | src/SpaceAINet.Console/GameManager.cs:395-399 | score 0, direction right, start and both timers at `now` |
| Rules.RestartIsFresh | src/SpaceAINet.Console/GameManager.cs:392-407 | a restart gives score 0, eight live enemies, no bullets, the ship centred, blank buffers and the counter's invariant |
| GameLoop.UpdateKeepsBuffers | src/SpaceAINet.Console/GameManager.cs:401-403 | the simulation step keeps both buffers' size, and the previous frame is unchanged unless a restart blanked it |

## Left out

- The AI provider, `GameActionResult`, the start screen and `Program` are not part of this model.
- `ScreenshotService`: HandleInput reports that S was pressed and does nothing else.
- The game-over and victory screens are console I/O with a modal key read. Each is replaced by
  the answer it would get: R, which restarts, or any other key, which stops the game.
- Console output is a sequence of `Write`s, each a cell at a position with its colour. Cursor
  visibility, the output encoding and `Console.Clear` are not modelled.
- `Thread.Sleep`: `RunGameLoop` returns the delay of every tick, `TickDelay` of the game's speed;
  the sleep itself is left out.
- The clock: one timestamp `now` per tick stands for every `DateTime.Now` read during that tick.
  Without an end screen those reads are microseconds apart. With one, the reads of `RestartGame`
  (GameManager.cs:396-399) and of `DrawUI` (GameManager.cs:368) come after the blocking key read
  and can be seconds later; `now` is then the time after the screen. The earlier reads of that
  tick only decide the formation step and enemy fire and set their timers, and the restart
  replaces all of that; a stopped game never reads them again.
- `Random.Next(n)`: the draw is any natural number, and its remainder modulo n picks the
  shooter. Every live enemy can therefore be picked; the distribution is not modelled.
- Integers are unbounded. The score and the coordinates never come near 32-bit overflow, so no
  wrap-around is modelled.
- The terminal size is fixed when the game starts; resizing is not modelled.
- `Bullet.IsActive` is never set false in the code; the model keeps the flag and the tests on it.
- `GetRenderState` and `CaptureScreenshot` are left out: they only hand the current buffer to
  code outside this model.
- Bullet-pass removals: `List.Remove` is modelled by `Lists.Without`. It is proved to keep
  exactly the bullets not collected, in order.
- After an end screen the terminal no longer shows the previous buffer, and the model does not
  track what it shows. The screen clears the console, writes six centred message lines, and the
  key read echoes the key (GameManager.cs:409-471). On a restart, `RestartGame` blanks the
  previous buffer, so the next diff skips every cell that is also blank in the new frame, and
  message text on those cells stays on screen. On a stop, the final render diffs against the
  last frame drawn, not against the message screen. `RenderShowsFrame` and `DiffShowsFrame` are
  stated for a terminal that showed the previous buffer, which holds on every tick without an
  end screen.
- Many methods have no C# counterpart of their own. Each carries out a contiguous part of one C#
  method, in the same order, so that each proof stays small:
  - `SpawnFormation`, `SpawnTopRow` and `SpawnBottomRow` (InitializeGame);
  - `ClearBuffers` and `ResetCounters` (RestartGame);
  - `Shoot` and `AddBullet` (the spacebar case of HandleInput);
  - `ResolveBullets`, `BulletTurns`, `Turn`, `ResolveBullet`, `HitEnemy`, `FindVictim`,
    `RemoveBullets`, `AfterPass`, `AdvanceWorld`, `WinCheck`, `EndGame` and `AllEnemiesDead`
    (UpdateGame);
  - `EdgeReached`, `StepFormation`, `Descend`, `Shift` and `MoveAlive` (UpdateEnemies);
  - `Fire` and `CollectAlive` (UpdateEnemyShooting);
  - `Repaint`, `PaintFrame`, `PaintBackdrop`, `DrawSprites`, `DrawEnemies`, `DrawBullets`,
    `EmitChanges` and `SwapBuffers` (Render);
  - `DrawBorderRow` and `DrawSides` (DrawBorder), and `WriteStatus` (DrawUI);
  - `Tick` and `Simulate` (one pass of the loop in RunGameLoop).
- `RestartGame` runs its parts in a different order from the C# method. The C# resets the
  counters, clears the buffers, then initializes the game (GameManager.cs:394-406). The model
  clears the buffers, initializes the game, then resets the counters. The three touch disjoint
  fields, so the resulting state is the same.
