# Breakout game logic in Dafny

This project models the game logic of `script.js`, a browser Breakout game. The game's state is a group of module-level globals:

- the score, the record (`highScore`) and the lives;
- the `running` flag;
- the paddle and the ball;
- the 5 x 8 brick grid;
- the two arrow-key flags.

The frame loop moves the paddle and, while the game is running, calls `update`. `update` makes one physics step in this order:

1. the Euler move;
2. the wall bounces;
3. the paddle bounce;
4. the life-lost / game-over check;
5. the brick hits;
6. the level-clear check.

The start button and the key handlers assign the globals.

The project has three modules:

- `Bricks` (`bricks.dfy`): the layout constants, the brick record, the layout formulas of `resetBricks` and the count of bricks still alive.
- `Physics` (`physics.dfy`): the ball and paddle records, and each collision response as a pure function with its contract. The responses are the paddle clamp, the wall bounces, the paddle bounce with its `hitPos` deflection and speed clamp, and the brick strike.
- `Breakout` (`game.dfy`): the whole state as a `State` value, each handler and each phase of `update` as a function on it, and the lemmas about a whole step. It also holds the class `Game`, whose fields are the globals and whose methods update them step by step, as the source does:
  - the bricks are an `array` that `ResetBricks` overwrites in place with nested loops and a running `y`;
  - the brick loop clears `alive` flags in place;
  - `Remaining` counts in a loop.

  The constructor, `Update`, `Loop`, `Start`, `OnKeyDown` and `OnKeyUp` keep `Valid()`. Each of them, except the constructor, is proved to leave `Model()` equal to the matching function of the old state. The constructor is proved to give the page-load state. The phase methods state their effect on what they modify:
  - `MoveAndBounce`, `BounceOffPaddle` and `MovePaddleStep` give the new ball or paddle;
  - `ResetBricks` gives the new array contents;
  - `LoseBallStep`, `CollideBricks` and `ClearLevelStep` give the whole new `Model()`;
  - `Remaining` returns the count.

Positions and velocities are exact reals. The canvas width and height are integers given to the constructor. The stored record is a constructor argument. Each `Math.random() > 0.5` coin flip is a `bool` argument, `rightward`.

In these places the code does something other than the obvious design, and the model follows the code:

- The brick loop has no early exit. Every alive brick that the ball overlaps in a frame is destroyed. Each one scores 10 and negates `vy`, so two hits in one frame cancel (`Physics.FlipParity`).
- Game over is tested with `lives <= 0`. The brick loop still runs in a game-over frame. `highScore` is compared before that frame's bricks are scored, so their points are not in the record.
- Space only sets `running`. After a game over the ball is still below the floor and falling (`Breakout.GameOverLeavesBallLost`), so the next step's life-lost check spends another life, taking `lives` from 0 to -1 (`Breakout.ResumeAfterGameOver`). For this reason `lives >= 0` is not an invariant. Only the cap `lives <= 5` is kept.
- A ball that the strict paddle test lets through is strictly inside the paddle's span, so `hitPos` is strictly between -1 and 1.

## Model

| member | source | states |
|---|---|---|
| Bricks.LaidOut | script.js:90-101 | computes the brick that a fresh layout puts at row r, column c |
| Bricks.FreshGrid | script.js:81-107 | computes the whole fresh grid, row-major, brick (r, c) at index 8r + c |
| Bricks.InLayout | script.js:86-105 | holds when the grid has 40 bricks and each sits in its layout cell, whatever its alive flag |
| Bricks.AliveCount | script.js:309-314 | computes the `remaining` count, the number of alive bricks, which is at most the grid length |
| Bricks.BrickWidth | script.js:50-53 | the brick width is the floor of the width left after the two side margins and the seven gaps, divided by the 8 columns |
| Bricks.FreshGridCell | script.js:86-105 | brick (r, c) of a fresh grid sits at x = 20 + c(brickW + 6), y = 40 + 26r, has size brickW x 20, is alive and needs one hit |
| Bricks.FreshGridFull | script.js:81-107 | a fresh grid has exactly 40 bricks, all alive with one hit, all in their layout cells |
| Bricks.AliveCountPositive | script.js:309-317 | the remaining count is positive exactly when some brick is alive |
| Bricks.AliveCountFull | script.js:309-314 | the remaining count equals the grid size exactly when every brick is alive |
| Bricks.LayoutDisjoint | script.js:86-105 | no two distinct cells of a fresh layout overlap |
| Bricks.LayoutWithinMargins | script.js:51-53 | when the canvas is wide enough, every cell lies between the side margins and within the band of rows below the top offset |
| Breakout.Game.ResetBricks | script.js:81-107 | the array afterwards holds exactly the fresh grid, row-major |
| Physics.Advance | script.js:220-221 | computes the explicit Euler move, adding one frame's velocity to the position |
| Physics.MovePaddle | script.js:369-374 | only x changes; it ends at the key-moved target when that fits, at 0 or at width - w when it does not; when w <= width it lies in [0, width - w] |
| Breakout.Game.MovePaddleStep | script.js:369-374 | the paddle afterwards is the moved and clamped paddle |
| Physics.BounceWalls | script.js:224-238 | speed magnitudes and radius are kept; a crossing of the top wall sets y to r and negates vy, otherwise y and vy are unchanged, and y >= r afterwards; on a canvas at least 2r wide, a crossing of the right or left wall sets x to width - r or r and negates vx, otherwise x and vx are unchanged, and r <= x <= width - r afterwards |
| Breakout.Game.MoveAndBounce | script.js:219-238 | the ball afterwards is the Euler-moved ball after the three wall bounces |
| Physics.HitPos | script.js:250 | for a ball inside the paddle's span the offset lies strictly between -1 and 1, is zero exactly at the paddle's centre and positive exactly right of it |
| Physics.QuotientWithinUnit | script.js:250 | a numerator smaller in magnitude than the positive denominator gives a quotient strictly inside (-1, 1) with the numerator's sign |
| Physics.Abs | script.js:254 | computes Math.abs, here and at script.js:322: -v for a negative value, v otherwise |
| Physics.Sign | script.js:254 | computes Math.sign: 1 for a positive value, -1 for a negative one, 0 for zero |
| Physics.ClampSpeed | script.js:254 | the result's magnitude is at most 8; a speed within the limit is unchanged, a larger one becomes exactly 8 in magnitude; the sign is kept |
| Physics.HitsPaddle | script.js:241-244 | holds when the ball's lower edge is strictly inside the paddle's band and its centre strictly inside the paddle's span |
| Physics.MoveBall | script.js:219-257 | computes the ball after the Euler move, the wall bounces and the paddle bounce |
| Physics.BouncePaddle | script.js:241-255 | without a hit the ball is unchanged; on a hit x and r are kept, the ball rests on the paddle's top edge, vy is negated and vx is the clamped vx + 1.2 hitPos with magnitude at most 8; when unclamped, vx changes by less than 1.2, toward the side of the paddle that was hit |
| Breakout.Game.BounceOffPaddle | script.js:241-257 | the ball afterwards is the paddle-bounced ball |
| Breakout.Launch | script.js:277-280 | the relaunched ball is at the canvas centre with radius kept, vx = 3 toward the coin's side and vy = -3 |
| Breakout.Recentred | script.js:281 | only the paddle's x changes, its centre is the canvas centre, and it lies within the canvas when it fits |
| Breakout.Lost | script.js:260 | holds when the ball's top edge is below the bottom of the canvas |
| Breakout.Max | script.js:269-270 | computes the larger of two integers, the record update when a game ends |
| Breakout.LoseBall | script.js:260-285 | nothing changes unless the ball is below the floor; then lives drop by exactly one; at lives <= 0 the game stops and the record becomes the larger of record and score, with ball and paddle left where they are; otherwise ball and paddle are relaunched and recentred; the record never decreases; score and bricks are untouched |
| Breakout.Game.LoseBallStep | script.js:260-285 | the globals afterwards are the life-lost state |
| Physics.BallTouches | script.js:294-297 | holds when the ball's bounding square strictly overlaps the brick's rectangle |
| Physics.Struck | script.js:288-306 | computes the grid after the pass, every brick struck independently |
| Physics.Flip | script.js:303 | computes a velocity component negated k times |
| Physics.Strike | script.js:290-299 | a brick dies exactly when it was alive and overlaps the ball's bounding square; nothing else about it changes |
| Physics.StruckCount | script.js:288-306 | the number of bricks destroyed in a pass is at most the number alive |
| Physics.StrikeAccounting | script.js:288-306 | the pass destroys exactly StruckCount bricks: the alive count drops by that number |
| Physics.FlipParity | script.js:303 | vy negated k times is vy for even k and -vy for odd k |
| Breakout.BrickPass | script.js:288-306 | computes the state after the brick loop: the struck grid, 10 points per destroyed brick and vy negated once per destroyed brick |
| Breakout.BrickPassAccounting | script.js:288-306 | the brick pass adds exactly 10 per destroyed brick, negates vy once per destroyed brick, strikes each brick independently (no early exit) and changes nothing but bricks, score and vy |
| Breakout.BrickPassConsistent | script.js:288-306 | the brick pass keeps the bricks in their layout and the score a non-negative multiple of 10 |
| Breakout.Game.CollideBricks | script.js:288-306 | the scan over all 40 bricks leaves the globals equal to the brick-pass state |
| Breakout.Game.Remaining | script.js:309-314 | the count equals the number of alive bricks |
| Breakout.Min | script.js:323 | computes Math.min, the smaller of two integers, which caps the bonus life |
| Breakout.ClearLevel | script.js:316-326 | with a brick alive nothing changes; with none, the grid is fresh, lives become min(5, lives + 1), the ball is recentred with radius kept, vx doubled with its sign kept and vy = -2 abs(vy), and nothing else changes |
| Breakout.Game.ClearLevelStep | script.js:308-326 | the globals afterwards are the level-clear state |
| Breakout.ClearLevelValid | script.js:316-326 | from a consistent state the level-clear check leaves a valid state with at least one brick alive |
| Breakout.Collide | script.js:219-306 | computes the state after every phase of `update` before the level-clear check |
| Breakout.Step | script.js:218-327 | computes the state after one call of `update`: the phases up to the brick pass, then the level-clear check |
| Breakout.LevelCleared | script.js:309-317 | holds when no brick is alive after the brick pass of a step, the `remaining === 0` test |
| Breakout.GameOver | script.js:260-264 | holds when the ball falls below the floor in a step with no life left to spend, the `lives <= 0` test after the decrement |
| Breakout.StepKeepsBrickAlive | script.js:218-327 | when `update` returns some brick is alive; a cleared level leaves the fresh 40-brick grid and at most 5 lives |
| Breakout.StepScore | script.js:287-326 | within a step the score never decreases and grows by exactly 10 per destroyed brick: all bricks alive at the start when the level clears, otherwise the drop in the alive count |
| Breakout.StepBricksNeverRevive | script.js:287-306 | until the level clears, no brick comes back to life, a dead brick stays unchanged and the alive count does not grow |
| Breakout.StepHighScore | script.js:259-273 | the record never decreases and changes only at game over, to the larger of record and score; the game stops exactly at game over |
| Breakout.StepLives | script.js:259-264 | a lost ball costs exactly one life; a level cleared in the same step gives one back up to the cap of 5 |
| Breakout.Consistent | script.js:12-53 | holds when the paddle fits the canvas, the ball has a positive radius, the bricks sit in their layout, the score is a non-negative multiple of 10 and lives are at most 5 |
| Breakout.ValidState | script.js:218-327 | the invariant: a consistent state with at least one brick alive |
| Breakout.StepPreservesValid | script.js:218-327 | every step keeps the invariant: paddle fits, ball has a radius, bricks in layout, score a non-negative multiple of 10, lives at most 5, a brick alive |
| Breakout.Game.Update | script.js:218-327 | the six phases in order leave the globals equal to the step's state and keep the invariant |
| Breakout.PaddleMoveKeepsValid | script.js:369-374 | moving the paddle keeps the invariant |
| Breakout.Frame | script.js:367-377 | computes the state after one tick of `loop`: the paddle move and clamp, then a step when running |
| Breakout.FrameKeepsPaddleInside | script.js:367-377 | after every tick the paddle lies inside the canvas and the invariant holds |
| Breakout.Game.Loop | script.js:367-377 | one tick leaves the globals equal to the frame's state and keeps the invariant |
| Breakout.Restart | script.js:346-364 | a restart sets score 0, 3 lives, a 100-wide recentred paddle, a relaunched ball, a fresh grid and running, keeps the record and the key flags |
| Breakout.RestartValid | script.js:346-364 | a restart from any state whose ball has a positive radius, on a canvas at least 100 wide, yields a valid state with all 40 bricks alive |
| Breakout.Game.Start | script.js:346-364 | the click handler leaves the globals equal to the restarted state and keeps the invariant |
| Breakout.Pressed | script.js:333-337 | an arrow key sets its flag, Space sets running, nothing else changes |
| Breakout.Released | script.js:340-343 | an arrow key clears its flag, nothing else changes |
| Breakout.Game.OnKeyDown | script.js:333-337 | the handler leaves the globals equal to the pressed state |
| Breakout.Game.OnKeyUp | script.js:340-343 | the handler leaves the globals equal to the released state |
| Breakout.ResumeAfterGameOver | script.js:336 | Space in any state whose ball is below the floor and falling, as a game over leaves it, with the paddle inside a canvas of non-negative height and a positive ball radius: the phases of the next step up to the brick pass spend another life and, from one life or fewer, stop the game again |
| Breakout.StruckCountNone | script.js:288-306 | a pass whose ball touches no brick destroys none |
| Breakout.GameOverLeavesBallLost | script.js:259-285 | a game-over step from a valid state, on a canvas tall enough for the brick band and the paddle, with the ball above the floor before it, clears no level and leaves the ball below the floor and falling, the game stopped and lives at 0 or below; Space then resumes into a step that spends another life |
| Breakout.Initial | script.js:12-53 | computes the page-load state: score 0, the given record, 3 lives, not running, the centred paddle and ball, a fresh grid and no arrow key held |
| Breakout.InitialValid | script.js:12-53 | the page-load state is valid with all 40 bricks alive |
| Breakout.Game.Valid | script.js:12-53 | holds when the grid array has 40 cells, the brick width is the layout's, the canvas fits the 100-wide paddle, and the globals form a valid state |
| Breakout.Game.constructor | script.js:12-110 | page load sets the globals' initial values and lays out the grid |

## Left out

- `draw` and `roundRect` (script.js:113-215) are canvas rendering only.
- `playBeep` and the `AudioContext` (script.js:57-78) only produce sound, so they are not modelled.
- The `localStorage` read and write (script.js:18, 271) are browser persistence. The record is an ordinary field, given to the constructor.
- The DOM lookups (script.js:2-9) and the `textContent` updates (script.js:19, 284, 301, 324, 349-352) only display values.
- `requestAnimationFrame` (script.js:383, 387) is scheduling by the host. `Game.Loop` is one tick.
- `Math.random` is a `bool` argument. IEEE-754 rounding is not modelled: reals are exact, so `hitPos * 1.2`, the clamp and the halvings carry no rounding error.
- The canvas size comes from an HTML attribute that is not part of this model. It is a constructor argument, required to be at least the paddle width.
- `Game.ResetBricks` overwrites one flat row-major array in place. The source builds a new array of row arrays. No other reference to the old grid exists, so every later read sees the same bricks.
- `Game.CollideBricks` and `Game.Remaining` index that flat array. `b` is defined for every cell of a full grid, so the `!b` test at script.js:291 never skips a brick and is not modelled.
