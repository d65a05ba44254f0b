/**
 * The main loop on values: one tick is input, the simulation step and rendering (the frame is
 * painted, the changed cells are written to the terminal, the buffers swap); the loop repeats
 * ticks while the game is running.
 */
module GameLoop {
  import opened Options
  import opened Screen
  import opened Terminal
  import opened Rules
  import opened Frame

  /**
   * What the outside world supplies to one tick: the clock in milliseconds, the key read (if
   * any), the random draw (a number whose remainder modulo the number of live enemies picks the
   * shooter, so every enemy can be picked), and the answers the loss and win screens would get (R or not).
   */
  datatype TickInput = TickInput(now: int, key: Option<Key>, draw: nat, restartOnLoss: bool, restartOnWin: bool)

  /** Rendering: paint the frame, emit the cells that differ from the previous frame, swap the buffers. */
  function RenderSpec(v: GameView, l: Layout, now: int): (GameView, seq<Write>) {
    var f := FrameOf(v, l, now);
    (v.(current := v.previous, previous := f), Diff(f, v.previous, l.width, l.height))
  }

  /** One pass of the main loop's body. */
  function TickSpec(v: GameView, l: Layout, t: TickInput): (GameView, seq<Write>) {
    var v1 := HandleKey(v, l, t.key);
    var v2 := UpdateSpec(v1, l, t.now, t.draw, t.restartOnLoss, t.restartOnWin);
    RenderSpec(v2, l, t.now)
  }

  /** The loop: ticks in order, for as long as the game is running and input lasts; the final state and all writes. */
  function Run(v: GameView, l: Layout, ts: seq<TickInput>): (GameView, seq<Write>)
    decreases |ts|, 2
  {
    if ts == [] || !v.running then (v, []) else RunTick(v, l, ts)
  }

  /** A running loop with input left: the first input drives a tick, the rest a further run. */
  function RunTick(v: GameView, l: Layout, ts: seq<TickInput>): (GameView, seq<Write>)
    requires ts != []
    decreases |ts|, 1
  {
    RunFrom(v, l, ts[0], ts[1..])
  }

  /** The tick on input t, then the run on the rest from the state it leaves; the writes of both in order. */
  function RunFrom(v: GameView, l: Layout, t: TickInput, rest: seq<TickInput>): (GameView, seq<Write>)
    decreases |rest| + 1, 0
  {
    var (v1, w1) := TickSpec(v, l, t);
    var (v2, w2) := Run(v1, l, rest);
    (v2, w1 + w2)
  }

  /** A stopped game or an exhausted input ends the run where it is, with nothing written. */
  lemma RunEnds(v: GameView, l: Layout, ts: seq<TickInput>)
    requires ts == [] || !v.running
    ensures Run(v, l, ts) == (v, [])
  {
  }

  /** A running loop with input left performs one tick and then runs on the rest. */
  lemma RunStep(v: GameView, l: Layout, ts: seq<TickInput>)
    requires ts != [] && v.running
    ensures var (v1, w1) := TickSpec(v, l, ts[0]);
            Run(v, l, ts) == (Run(v1, l, ts[1..]).0, w1 + Run(v1, l, ts[1..]).1)
  {
    assert Run(v, l, ts) == RunTick(v, l, ts);
    assert RunTick(v, l, ts) == RunFrom(v, l, ts[0], ts[1..]);
  }

  /** The loop's invariant: the whole run is the writes so far followed by the run on the inputs left. */
  ghost predicate RunSoFar(v: GameView, l: Layout, inputs: seq<TickInput>, i: nat, u: GameView, writes: seq<Write>)
    requires i <= |inputs|
  {
    Run(v, l, inputs) == (Run(u, l, inputs[i..]).0, writes + Run(u, l, inputs[i..]).1)
  }

  /** Before the first tick, nothing has been written and all input is left. */
  lemma RunBegins(v: GameView, l: Layout, inputs: seq<TickInput>)
    ensures RunSoFar(v, l, inputs, 0, v, [])
  {
    assert inputs[0..] == inputs && [] + Run(v, l, inputs).1 == Run(v, l, inputs).1;
  }

  /** One more tick, whose writes extend those so far, keeps the invariant. */
  lemma RunAdvance(v: GameView, l: Layout, inputs: seq<TickInput>, i: nat, u: GameView, writes: seq<Write>, next: GameView, w: seq<Write>)
    requires i < |inputs| && RunSoFar(v, l, inputs, i, u, writes)
    requires Run(u, l, inputs[i..]) == (Run(next, l, inputs[i..][1..]).0, w + Run(next, l, inputs[i..][1..]).1)
    ensures RunSoFar(v, l, inputs, i + 1, next, writes + w)
  {
    assert inputs[i..][1..] == inputs[i + 1..];
    assert writes + (w + Run(next, l, inputs[i + 1..]).1) == (writes + w) + Run(next, l, inputs[i + 1..]).1;
  }

  /** When the game has stopped or input has run out, the run has ended in the current state with the writes so far. */
  lemma RunFinishes(v: GameView, l: Layout, inputs: seq<TickInput>, i: nat, u: GameView, writes: seq<Write>)
    requires i <= |inputs| && RunSoFar(v, l, inputs, i, u, writes)
    requires i == |inputs| || !u.running
    ensures Run(v, l, inputs) == (u, writes)
  {
    RunEnds(u, l, inputs[i..]);
    assert writes + [] == writes;
  }

  /** Both render buffers have the terminal's size. */
  ghost predicate Framed(v: GameView, l: Layout) {
    Shaped(v.current, l.width, l.height) && Shaped(v.previous, l.width, l.height)
  }

  lemma NewGameFramed(l: Layout, now: int)
    ensures Framed(Initial(l, now), l)
  {
  }

  /**
   * The double-buffered renderer is exact: a terminal that showed the previous frame shows the
   * new frame after the writes, the writes are exactly the cells where the two frames differ,
   * and afterwards the new frame is the previous one and the old previous buffer is the next
   * to paint into.
   */
  lemma RenderShowsFrame(v: GameView, l: Layout, now: int)
    requires Framed(v, l)
    ensures var (r, ws) := RenderSpec(v, l, now);
            Framed(r, l) && r.previous == FrameOf(v, l, now) && r.current == v.previous &&
            Apply(v.previous, ws) == FrameOf(v, l, now) &&
            forall wr :: wr in ws <==>
              0 <= wr.x < l.width && 0 <= wr.y < l.height &&
              CellAt(FrameOf(v, l, now), wr.x, wr.y) != CellAt(v.previous, wr.x, wr.y) &&
              wr.cell == CellAt(FrameOf(v, l, now), wr.x, wr.y)
  {
    var f := FrameOf(v, l, now);
    DiffShowsFrame(f, v.previous, l.width, l.height);
    forall wr
      ensures wr in Diff(f, v.previous, l.width, l.height) <==>
              0 <= wr.x < l.width && 0 <= wr.y < l.height &&
              CellAt(f, wr.x, wr.y) != CellAt(v.previous, wr.x, wr.y) && wr.cell == CellAt(f, wr.x, wr.y)
    {
      DiffExact(f, v.previous, l.width, l.height, wr);
    }
  }

  /** Repainting an unchanged frame writes nothing. */
  lemma SameFrameWritesNothing(v: GameView, l: Layout, now: int)
    requires v.previous == FrameOf(v, l, now)
    ensures RenderSpec(v, l, now).1 == []
  {
    NoChangeNoOutput(v.previous, l.width, l.height);
  }

  /**
   * The simulation step keeps both buffers' size, and it leaves the previous frame alone unless
   * an end screen restarted the game, which blanks it. The terminal then shows the end screen's
   * message rather than a blank frame, so it no longer matches the previous buffer.
   */
  lemma UpdateKeepsBuffers(v: GameView, l: Layout, now: int, draw: nat, restartOnLoss: bool, restartOnWin: bool)
    requires Framed(v, l)
    ensures var u := UpdateSpec(v, l, now, draw, restartOnLoss, restartOnWin);
            Framed(u, l) && (u.previous == v.previous || u.previous == Blank(l.width, l.height))
  {
    assert SameFrame(BulletPass(v, l).game, v);
  }

  /** A tick keeps the shot counter's invariant whenever the game is still running afterwards. */
  lemma TickConsistent(v: GameView, l: Layout, t: TickInput)
    requires Consistent(v)
    ensures var r := TickSpec(v, l, t).0;
            r.running ==> Consistent(r)
  {
    HandleKeyConsistent(v, l, t.key);
    UpdateConsistent(HandleKey(v, l, t.key), l, t.now, t.draw, t.restartOnLoss, t.restartOnWin);
  }

  /**
   * Over any run from a consistent state, the counter equals the number of player bullets in
   * flight, and so never exceeds MaxBullets, in every state that is still running.
   */
  lemma {:induction false} RunConsistent(v: GameView, l: Layout, ts: seq<TickInput>)
    requires Consistent(v)
    ensures var r := Run(v, l, ts).0;
            r.running ==> Consistent(r)
    decreases |ts|
  {
    if ts != [] && v.running {
      TickConsistent(v, l, ts[0]);
      RunStep(v, l, ts);
      var v1 := TickSpec(v, l, ts[0]).0;
      if v1.running {
        RunConsistent(v1, l, ts[1..]);
      } else {
        RunEnds(v1, l, ts[1..]);
      }
    } else {
      RunEnds(v, l, ts);
    }
  }

  /** The loop stops exactly when the game stops running or input runs out; a stopped game never changes again. */
  lemma StoppedStaysStopped(v: GameView, l: Layout, ts: seq<TickInput>)
    requires !v.running
    ensures Run(v, l, ts) == (v, [])
  {
  }
}
