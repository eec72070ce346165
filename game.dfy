/** The game state machine of script.js: the globals as one state value, each
    operation as a function on it (the specification), and the class `Game`
    whose fields are the globals and whose methods perform the same updates
    step by step, proved equal to those functions. */
module Breakout {
  import opened Bricks
  import opened Physics

  const POINTS_PER_BRICK: int := 10
  const MAX_LIVES: int := 5
  const START_LIVES: int := 3
  const PADDLE_W: real := 100.0
  const PADDLE_H: real := 12.0
  /** Distance of the paddle's top edge above the bottom of the canvas. */
  const PADDLE_LIFT: real := 30.0
  const PADDLE_SPEED: real := 10.0
  const BALL_R: real := 8.0
  /** Speed of each velocity component when the ball is (re)launched. */
  const LAUNCH_SPEED: real := 3.0

  /** The globals of the game: score, record, lives, running flag, paddle, ball,
      bricks (row-major) and the two arrow-key flags. */
  datatype State = State(score: int, highScore: int, lives: int, running: bool,
                         paddle: Paddle, ball: Ball, bricks: seq<Brick>,
                         leftDown: bool, rightDown: bool)

  function Max(a: int, b: int): int
  {
    if a < b then b else a
  }

  function Min(a: int, b: int): int
  {
    if a < b then a else b
  }

  /** What holds between the phases of a step: the paddle fits the canvas, the
      ball has a radius, the bricks sit in their layout, the score is a
      non-negative multiple of POINTS_PER_BRICK and lives never exceed the cap. */
  ghost predicate Consistent(s: State, width: int)
  {
    s.paddle.w <= width as real && 0.0 < s.ball.r &&
    InLayout(s.bricks, width) &&
    0 <= s.score && s.score % POINTS_PER_BRICK == 0 &&
    s.lives <= MAX_LIVES
  }

  /** What every operation keeps: consistency, and at least one brick alive. */
  ghost predicate ValidState(s: State, width: int)
  {
    Consistent(s, width) && AliveCount(s.bricks) > 0
  }

  /** Moving the paddle keeps the invariant as long as its width is unchanged. */
  lemma PaddleMoveKeepsValid(s: State, p: Paddle, width: int)
    requires ValidState(s, width) && p.w == s.paddle.w
    ensures ValidState(s.(paddle := p), width)
  {
  }

  /** The state when the page loads, before anything is pressed. */
  function Initial(width: int, height: int, highScore: int): State
  {
    State(0, highScore, START_LIVES, false,
          Paddle((width as real - PADDLE_W) / 2.0, height as real - PADDLE_LIFT, PADDLE_W, PADDLE_H, PADDLE_SPEED),
          Ball(width as real / 2.0, height as real / 2.0, BALL_R, LAUNCH_SPEED, -LAUNCH_SPEED),
          FreshGrid(width), false, false)
  }

  lemma InitialValid(width: int, height: int, highScore: int)
    requires PADDLE_W <= width as real
    ensures ValidState(Initial(width, height, highScore), width)
    ensures AliveCount(Initial(width, height, highScore).bricks) == GRID_SIZE
  {
    FreshGridFull(width);
  }

  /** The ball put back at the centre of the canvas, launched upward at
      LAUNCH_SPEED, to the right or to the left by the coin flip. */
  function Launch(b: Ball, width: int, height: int, rightward: bool): (o: Ball)
    ensures o.r == b.r && o.x == width as real / 2.0 && o.y == height as real / 2.0
    ensures Abs(o.vx) == LAUNCH_SPEED && (o.vx > 0.0 <==> rightward)
    ensures o.vy < 0.0 && Abs(o.vy) == LAUNCH_SPEED
  {
    b.(x := width as real / 2.0, y := height as real / 2.0,
       vx := LAUNCH_SPEED * (if rightward then 1.0 else -1.0), vy := -LAUNCH_SPEED)
  }

  /** The paddle centred horizontally on the canvas. */
  function Recentred(p: Paddle, width: int): (o: Paddle)
    ensures o == p.(x := o.x) && o.x + o.w / 2.0 == width as real / 2.0
    ensures p.w <= width as real ==> 0.0 <= o.x <= width as real - o.w
  {
    p.(x := (width as real - p.w) / 2.0)
  }

  /** The ball's top edge is below the bottom of the canvas. */
  predicate Lost(b: Ball, height: int)
  {
    b.y - b.r > height as real
  }

  /** The life-lost / game-over part of a step. */
  function LoseBall(s: State, width: int, height: int, rightward: bool): (o: State)
    ensures o.score == s.score && o.bricks == s.bricks
    ensures o.leftDown == s.leftDown && o.rightDown == s.rightDown
    ensures !Lost(s.ball, height) ==> o == s
    ensures Lost(s.ball, height) ==> o.lives == s.lives - 1
    ensures Lost(s.ball, height) && o.lives <= 0 ==>
      !o.running && o.highScore == Max(s.highScore, s.score) &&
      o.ball == s.ball && o.paddle == s.paddle
    ensures Lost(s.ball, height) && o.lives > 0 ==>
      o.running == s.running && o.highScore == s.highScore &&
      o.ball == Launch(s.ball, width, height, rightward) && o.paddle == Recentred(s.paddle, width)
    ensures o.highScore >= s.highScore
  {
    if !Lost(s.ball, height) then s
    else
      var lives := s.lives - 1;
      if lives <= 0 then
        s.(lives := lives, running := false, highScore := Max(s.highScore, s.score))
      else
        s.(lives := lives, ball := Launch(s.ball, width, height, rightward),
           paddle := Recentred(s.paddle, width))
  }

  /** The brick part of a step: every alive brick the ball overlaps is destroyed,
      each one adding POINTS_PER_BRICK and negating vy. */
  function BrickPass(s: State): State
  {
    var n := StruckCount(s.ball, s.bricks);
    s.(bricks := Struck(s.ball, s.bricks),
       score := s.score + POINTS_PER_BRICK * n,
       ball := s.ball.(vy := Flip(s.ball.vy, n)))
  }

  /** The brick pass scores exactly POINTS_PER_BRICK per brick it destroys, leaves
      vy negated once per destroyed brick, and changes only the struck bricks,
      the score and vy. */
  lemma BrickPassAccounting(s: State)
    ensures var o := BrickPass(s);
      var destroyed := AliveCount(s.bricks) - AliveCount(o.bricks);
      0 <= destroyed &&
      o.score == s.score + POINTS_PER_BRICK * destroyed &&
      o.ball == s.ball.(vy := if destroyed % 2 == 0 then s.ball.vy else -s.ball.vy) &&
      |o.bricks| == |s.bricks| &&
      (forall k :: 0 <= k < |s.bricks| ==> o.bricks[k] == Strike(s.ball, s.bricks[k])) &&
      o == s.(score := o.score, ball := o.ball, bricks := o.bricks)
  {
    StrikeAccounting(s.ball, s.bricks);
    FlipParity(s.ball.vy, StruckCount(s.ball, s.bricks));
  }

  /** The level-clear part of a step. */
  function ClearLevel(s: State, width: int, height: int): (o: State)
    ensures AliveCount(s.bricks) > 0 ==> o == s
    ensures AliveCount(s.bricks) == 0 ==>
      o == s.(bricks := FreshGrid(width), lives := o.lives, ball := o.ball) &&
      o.lives == Min(MAX_LIVES, s.lives + 1) && o.lives <= MAX_LIVES &&
      o.ball.r == s.ball.r &&
      o.ball.x == width as real / 2.0 && o.ball.y == height as real / 2.0 &&
      Abs(o.ball.vx) == 2.0 * Abs(s.ball.vx) && Sign(o.ball.vx) == Sign(s.ball.vx) &&
      o.ball.vy <= 0.0 && Abs(o.ball.vy) == 2.0 * Abs(s.ball.vy)
  {
    if AliveCount(s.bricks) == 0 then
      s.(bricks := FreshGrid(width),
         ball := s.ball.(x := width as real / 2.0, y := height as real / 2.0,
                         vx := s.ball.vx * 2.0, vy := -Abs(s.ball.vy) * 2.0),
         lives := Min(MAX_LIVES, s.lives + 1))
    else s
  }

  /** Everything `update` does before the level-clear check. */
  function Collide(s: State, width: int, height: int, rightward: bool): State
  {
    BrickPass(LoseBall(s.(ball := MoveBall(s.ball, s.paddle, width as real)), width, height, rightward))
  }

  /** One call of `update`: move, wall and paddle bounces, life lost, bricks, level clear. */
  function Step(s: State, width: int, height: int, rightward: bool): State
  {
    ClearLevel(Collide(s, width, height, rightward), width, height)
  }

  /** The step destroyed the last brick standing. */
  predicate LevelCleared(s: State, width: int, height: int, rightward: bool)
  {
    AliveCount(Collide(s, width, height, rightward).bricks) == 0
  }

  /** The ball falls below the floor in this step with no life left to spend. */
  predicate GameOver(s: State, width: int, height: int)
  {
    Lost(MoveBall(s.ball, s.paddle, width as real), height) && s.lives - 1 <= 0
  }

  /** A step always ends with a brick alive; a cleared level is refilled to a
      full grid and the bonus life respects the cap. */
  lemma StepKeepsBrickAlive(s: State, width: int, height: int, rightward: bool)
    ensures AliveCount(Step(s, width, height, rightward).bricks) > 0
    ensures LevelCleared(s, width, height, rightward) ==>
      Step(s, width, height, rightward).bricks == FreshGrid(width) &&
      AliveCount(Step(s, width, height, rightward).bricks) == GRID_SIZE &&
      Step(s, width, height, rightward).lives <= MAX_LIVES
  {
    FreshGridFull(width);
  }

  /** Within a step the score never decreases and grows by exactly
      POINTS_PER_BRICK per destroyed brick: all bricks that were alive when the
      level clears, otherwise the drop in the alive count. */
  lemma StepScore(s: State, width: int, height: int, rightward: bool)
    ensures Step(s, width, height, rightward).score >= s.score
    ensures LevelCleared(s, width, height, rightward) ==>
      Step(s, width, height, rightward).score == s.score + POINTS_PER_BRICK * AliveCount(s.bricks)
    ensures !LevelCleared(s, width, height, rightward) ==>
      Step(s, width, height, rightward).score ==
        s.score + POINTS_PER_BRICK * (AliveCount(s.bricks) - AliveCount(Step(s, width, height, rightward).bricks))
  {
    var before := LoseBall(s.(ball := MoveBall(s.ball, s.paddle, width as real)), width, height, rightward);
    BrickPassAccounting(before);
  }

  /** Until the level clears, a dead brick stays dead and unchanged, no brick
      comes back to life, and the alive count never grows. */
  lemma StepBricksNeverRevive(s: State, width: int, height: int, rightward: bool)
    requires !LevelCleared(s, width, height, rightward)
    ensures var t := Step(s, width, height, rightward);
      |t.bricks| == |s.bricks| &&
      AliveCount(t.bricks) <= AliveCount(s.bricks) &&
      forall k :: 0 <= k < |s.bricks| ==>
        (t.bricks[k].alive ==> s.bricks[k].alive) &&
        (!s.bricks[k].alive ==> t.bricks[k] == s.bricks[k])
  {
    var before := LoseBall(s.(ball := MoveBall(s.ball, s.paddle, width as real)), width, height, rightward);
    BrickPassAccounting(before);
  }

  /** The record is only ever raised, and only at game over, to the larger of the
      record and the score at that moment; game over stops the game. */
  lemma StepHighScore(s: State, width: int, height: int, rightward: bool)
    ensures var t := Step(s, width, height, rightward);
      t.highScore >= s.highScore &&
      t.highScore == (if GameOver(s, width, height) then Max(s.highScore, s.score) else s.highScore) &&
      t.running == (s.running && !GameOver(s, width, height))
  {
  }

  /** Losing the ball costs exactly one life (a level cleared in the same frame
      gives it back, up to the cap). */
  lemma StepLives(s: State, width: int, height: int, rightward: bool)
    ensures var t := Step(s, width, height, rightward);
      var spent := if Lost(MoveBall(s.ball, s.paddle, width as real), height) then s.lives - 1 else s.lives;
      t.lives == (if LevelCleared(s, width, height, rightward) then Min(MAX_LIVES, spent + 1) else spent)
  {
  }

  /** Every step keeps the state invariant. */
  lemma StepPreservesValid(s: State, width: int, height: int, rightward: bool)
    requires ValidState(s, width)
    ensures ValidState(Step(s, width, height, rightward), width)
  {
    var moved := s.(ball := MoveBall(s.ball, s.paddle, width as real));
    assert Consistent(moved, width);
    var before := LoseBall(moved, width, height, rightward);
    assert Consistent(before, width);
    BrickPassConsistent(before, width);
    ClearLevelValid(BrickPass(before), width, height);
  }

  lemma BrickPassConsistent(s: State, width: int)
    requires Consistent(s, width)
    ensures Consistent(BrickPass(s), width)
  {
    var after := BrickPass(s);
    BrickPassAccounting(s);
    var n := StruckCount(s.ball, s.bricks);
    assert after.score == s.score + POINTS_PER_BRICK * n;
    assert InLayout(after.bricks, width) by {
      forall k | 0 <= k < |after.bricks|
        ensures after.bricks[k] == LaidOut(width, k / COLS, k % COLS).(alive := after.bricks[k].alive)
      {
        assert after.bricks[k] == Strike(s.ball, s.bricks[k]);
      }
    }
  }

  lemma ClearLevelValid(s: State, width: int, height: int)
    requires Consistent(s, width)
    ensures ValidState(ClearLevel(s, width, height), width)
  {
    FreshGridFull(width);
  }

  /** One tick of `loop`: paddle movement and clamp, then a step if running. */
  function Frame(s: State, width: int, height: int, rightward: bool): State
  {
    var moved := s.(paddle := MovePaddle(s.paddle, s.leftDown, s.rightDown, width as real));
    if moved.running then Step(moved, width, height, rightward) else moved
  }

  /** After every tick the paddle lies inside the canvas, and the invariant holds. */
  lemma FrameKeepsPaddleInside(s: State, width: int, height: int, rightward: bool)
    requires ValidState(s, width)
    ensures var t := Frame(s, width, height, rightward);
      0.0 <= t.paddle.x <= width as real - t.paddle.w && ValidState(t, width)
  {
    var moved := s.(paddle := MovePaddle(s.paddle, s.leftDown, s.rightDown, width as real));
    assert ValidState(moved, width);
    if moved.running {
      StepPreservesValid(moved, width, height, rightward);
    }
  }

  /** The start button: a new game with a fresh grid, keeping the record. */
  function Restart(s: State, width: int, height: int, rightward: bool): (o: State)
    ensures o == s.(score := 0, lives := START_LIVES, running := true,
                    paddle := o.paddle, ball := o.ball, bricks := FreshGrid(width))
    ensures o.highScore == s.highScore
    ensures o.paddle.w == PADDLE_W && o.paddle == Recentred(s.paddle.(w := PADDLE_W), width)
    ensures o.ball == Launch(s.ball, width, height, rightward)
  {
    s.(score := 0, lives := START_LIVES,
       paddle := Recentred(s.paddle.(w := PADDLE_W), width),
       ball := Launch(s.ball, width, height, rightward),
       bricks := FreshGrid(width), running := true)
  }

  /** A restart from any state whose ball has a positive radius, on a canvas at
      least PADDLE_W wide, is a valid game with every brick alive (a game over
      included). */
  lemma RestartValid(s: State, width: int, height: int, rightward: bool)
    requires PADDLE_W <= width as real && 0.0 < s.ball.r
    ensures ValidState(Restart(s, width, height, rightward), width)
    ensures AliveCount(Restart(s, width, height, rightward).bricks) == GRID_SIZE
  {
    FreshGridFull(width);
  }

  /** `onkeydown`: arrows set their flag, Space sets running and nothing else. */
  function Pressed(s: State, key: string): (o: State)
    ensures o == s.(leftDown := o.leftDown, rightDown := o.rightDown, running := o.running)
    ensures o.leftDown == (s.leftDown || key == "ArrowLeft")
    ensures o.rightDown == (s.rightDown || key == "ArrowRight")
    ensures o.running == (s.running || key == " ")
  {
    var s1 := if key == "ArrowLeft" then s.(leftDown := true) else s;
    var s2 := if key == "ArrowRight" then s1.(rightDown := true) else s1;
    if key == " " then s2.(running := true) else s2
  }

  /** `onkeyup`: arrows clear their flag. */
  function Released(s: State, key: string): (o: State)
    ensures o == s.(leftDown := o.leftDown, rightDown := o.rightDown)
    ensures o.leftDown == (s.leftDown && key != "ArrowLeft")
    ensures o.rightDown == (s.rightDown && key != "ArrowRight")
  {
    var s1 := if key == "ArrowLeft" then s.(leftDown := false) else s;
    if key == "ArrowRight" then s1.(rightDown := false) else s1
  }

  /** Space resumes without a reset. In any state whose ball is below the floor
      and falling, as a game over leaves it, the phases of the next step up to the
      brick pass spend another life, taking lives from 0 to -1. */
  lemma ResumeAfterGameOver(s: State, width: int, height: int, rightward: bool)
    requires 0 <= height && 0.0 < s.ball.r && 0.0 <= s.ball.vy
    requires Lost(s.ball, height) && s.paddle.y + s.paddle.h <= height as real
    ensures var t := Collide(Pressed(s, " "), width, height, rightward);
      t.lives == s.lives - 1 && (s.lives <= 1 ==> !t.running)
  {
    var b := MoveBall(s.ball, s.paddle, width as real);
    assert Lost(b, height);
  }

  /** A ball that touches no brick destroys none. */
  lemma {:induction false} StruckCountNone(b: Ball, bs: seq<Brick>)
    requires forall k :: 0 <= k < |bs| ==> !BallTouches(b, bs[k])
    ensures StruckCount(b, bs) == 0
  {
    if bs != [] {
      StruckCountNone(b, bs[..|bs| - 1]);
    }
  }

  /** A game-over step leaves the ball below the floor and falling, the game
      stopped and no life left; Space then resumes into a step whose phases up to
      the brick pass spend yet another life. This assumes the ball was above the
      floor and the bricks' band and the paddle lie inside the canvas; a ball below
      the floor touches no brick, so the level cannot clear in that step. */
  lemma GameOverLeavesBallLost(s: State, width: int, height: int, rightward: bool, next: bool)
    requires ValidState(s, width)
    requires OFFSET_TOP + ROWS * BRICK_H + (ROWS - 1) * BRICK_PADDING <= height
    requires s.paddle.y + s.paddle.h <= height as real && 0.0 <= s.paddle.h
    requires !Lost(s.ball, height)
    requires GameOver(s, width, height)
    ensures !LevelCleared(s, width, height, rightward)
    ensures var t := Step(s, width, height, rightward);
      Lost(t.ball, height) && t.ball.vy > 0.0 && !t.running && t.lives == s.lives - 1 && t.lives <= 0 &&
      Collide(Pressed(t, " "), width, height, next).lives == s.lives - 2
  {
    var moved := Advance(s.ball);
    var w := BounceWalls(moved, width as real);
    var b := MoveBall(s.ball, s.paddle, width as real);
    assert !HitsPaddle(w, s.paddle);
    assert b == w && moved.y - moved.r >= 0.0;
    var lost := LoseBall(s.(ball := b), width, height, rightward);
    assert lost.ball == b && !lost.running;
    forall k | 0 <= k < |lost.bricks| ensures !BallTouches(b, lost.bricks[k]) {
      assert lost.bricks[k].y == OFFSET_TOP + (k / COLS) * (BRICK_H + BRICK_PADDING);
    }
    StruckCountNone(b, lost.bricks);
    StrikeAccounting(b, lost.bricks);
    var t := Step(s, width, height, rightward);
    assert t.ball == b && t.paddle == s.paddle;
    ResumeAfterGameOver(t, width, height, next);
  }

  /** How StruckCount grows by one brick of the scan. */
  lemma StruckCountStep(b: Ball, g: seq<Brick>, i: int)
    requires 0 <= i < |g|
    ensures StruckCount(b, g[..i + 1]) ==
      StruckCount(b, g[..i]) + (if g[i].alive && BallTouches(b, g[i]) then 1 else 0)
  {
    assert g[..i + 1][..i] == g[..i];
  }

  class Game {
    const width: int
    const height: int
    /** Math.floor of the width left for each brick, fixed when the page loads. */
    const brickW: int
    /** The 5 x 8 grid, row-major: brick (r, c) at r * COLS + c. */
    const bricks: array<Brick>
    var score: int
    var highScore: int
    var lives: int
    var running: bool
    var paddle: Paddle
    var ball: Ball
    var leftDown: bool
    var rightDown: bool

    ghost function Model(): State
      reads this, bricks
    {
      State(score, highScore, lives, running, paddle, ball, bricks[..], leftDown, rightDown)
    }

    ghost predicate Valid()
      reads this, bricks
    {
      bricks.Length == GRID_SIZE && brickW == BrickWidth(width) &&
      PADDLE_W <= width as real && ValidState(Model(), width)
    }

    /** Page load: the globals' initial values and `resetBricks()`; the stored
        record is given as `highScore`. */
    constructor (width: int, height: int, highScore: int)
      requires PADDLE_W <= width as real
      ensures Valid() && fresh(bricks)
      ensures this.width == width && this.height == height
      ensures Model() == Initial(width, height, highScore)
    {
      this.width := width;
      this.height := height;
      brickW := BrickWidth(width);
      bricks := new Brick[GRID_SIZE];
      score := 0;
      this.highScore := highScore;
      lives := START_LIVES;
      running := false;
      paddle := Paddle((width as real - PADDLE_W) / 2.0, height as real - PADDLE_LIFT, PADDLE_W, PADDLE_H, PADDLE_SPEED);
      ball := Ball(width as real / 2.0, height as real / 2.0, BALL_R, LAUNCH_SPEED, -LAUNCH_SPEED);
      leftDown, rightDown := false, false;
      new;
      ResetBricks();
      InitialValid(width, height, highScore);
    }

    /** `resetBricks`: lays the grid out row by row, with a running y. */
    method ResetBricks()
      requires bricks.Length == GRID_SIZE && brickW == BrickWidth(width)
      modifies bricks
      ensures bricks[..] == FreshGrid(width)
    {
      var y := OFFSET_TOP;
      for r := 0 to ROWS
        invariant y == OFFSET_TOP + r * (BRICK_H + BRICK_PADDING)
        invariant forall k :: 0 <= k < r * COLS ==> bricks[k] == LaidOut(width, k / COLS, k % COLS)
      {
        for c := 0 to COLS
          invariant forall k :: 0 <= k < r * COLS + c ==> bricks[k] == LaidOut(width, k / COLS, k % COLS)
        {
          var x := OFFSET_LEFT + c * (brickW + BRICK_PADDING);
          assert (r * COLS + c) / COLS == r && (r * COLS + c) % COLS == c;
          bricks[r * COLS + c] := Brick(x, y, brickW, BRICK_H, true, 1);
        }
        y := y + BRICK_H + BRICK_PADDING;
      }
      assert forall k :: 0 <= k < GRID_SIZE ==> bricks[..][k] == FreshGrid(width)[k];
    }

    /** The brick loop of `update`: scans the whole grid with no early exit. */
    method CollideBricks()
      requires bricks.Length == GRID_SIZE
      modifies this`score, this`ball, bricks
      ensures Model() == BrickPass(old(Model()))
    {
      ghost var b0 := ball;
      ghost var g0 := bricks[..];
      ghost var hits: nat := 0;
      for i := 0 to GRID_SIZE
        invariant hits == StruckCount(b0, g0[..i])
        invariant ball == b0.(vy := Flip(b0.vy, hits))
        invariant score == old(score) + POINTS_PER_BRICK * hits
        invariant forall k :: 0 <= k < i ==> bricks[k] == Strike(b0, g0[k])
        invariant forall k :: i <= k < GRID_SIZE ==> bricks[k] == g0[k]
      {
          ghost var before := bricks[..];
          var b := bricks[i];
          StruckCountStep(b0, g0, i);
          assert b == g0[i] && BallTouches(ball, b) == BallTouches(b0, b);
          if b.alive && BallTouches(ball, b) {
            bricks[i] := b.(alive := false);
            score := score + POINTS_PER_BRICK;
            ball := ball.(vy := -ball.vy);
            hits := hits + 1;
          }
          assert bricks[..] == before[i := Strike(b0, g0[i])];
      }
      assert g0[..GRID_SIZE] == g0;
      assert forall k :: 0 <= k < GRID_SIZE ==> bricks[..][k] == Struck(b0, g0)[k];
    }

    /** The `remaining` count of `update`. */
    method Remaining() returns (n: int)
      requires bricks.Length == GRID_SIZE
      ensures n == AliveCount(bricks[..])
    {
      n := 0;
      for r := 0 to ROWS
        invariant n == AliveCount(bricks[..r * COLS])
      {
        for c := 0 to COLS
          invariant n == AliveCount(bricks[..r * COLS + c])
        {
          var i := r * COLS + c;
          assert bricks[..i + 1][..i] == bricks[..i];
          if bricks[i].alive {
            n := n + 1;
          }
        }
      }
      assert bricks[..GRID_SIZE] == bricks[..];
    }

    /** `update`: one physics step, its phases in the order of the source. */
    method Update(rightward: bool)
      requires Valid()
      modifies this, bricks
      ensures Valid()
      ensures Model() == Step(old(Model()), width, height, rightward)
    {
      ghost var s0 := Model();
      MoveAndBounce();
      BounceOffPaddle();
      assert Model() == s0.(ball := MoveBall(s0.ball, s0.paddle, width as real));
      ghost var s1 := Model();
      LoseBallStep(rightward);
      assert Model() == LoseBall(s1, width, height, rightward);
      ghost var s2 := Model();
      CollideBricks();
      assert Model() == BrickPass(s2);
      assert Model() == Collide(s0, width, height, rightward);
      ghost var s3 := Model();
      ClearLevelStep();
      assert Model() == ClearLevel(s3, width, height);
      StepPreservesValid(s0, width, height, rightward);
    }

    /** The Euler move and the wall bounces of `update`. */
    method MoveAndBounce()
      modifies this`ball
      ensures ball == BounceWalls(Advance(old(ball)), width as real)
    {
      var w := width as real;
      ball := ball.(x := ball.x + ball.vx, y := ball.y + ball.vy);
      if ball.x + ball.r > w {
        ball := ball.(x := w - ball.r, vx := -ball.vx);
      }
      if ball.x - ball.r < 0.0 {
        ball := ball.(x := ball.r, vx := -ball.vx);
      }
      if ball.y - ball.r < 0.0 {
        ball := ball.(y := ball.r, vy := -ball.vy);
      }
    }

    /** The paddle bounce of `update`. */
    method BounceOffPaddle()
      modifies this`ball
      ensures ball == BouncePaddle(old(ball), paddle)
    {
      ghost var b1 := ball;
      if ball.y + ball.r > paddle.y && ball.y + ball.r < paddle.y + paddle.h &&
         ball.x > paddle.x && ball.x < paddle.x + paddle.w
      {
        ball := ball.(y := paddle.y - ball.r, vy := -ball.vy);
        var hitPos := (ball.x - (paddle.x + paddle.w / 2.0)) / (paddle.w / 2.0);
        assert hitPos == HitPos(b1, paddle);
        ball := ball.(vx := ball.vx + hitPos * DEFLECTION);
        if Abs(ball.vx) > MAX_SPEED_X {
          ball := ball.(vx := MAX_SPEED_X * Sign(ball.vx));
        }
        assert ball.vx == ClampSpeed(b1.vx + HitPos(b1, paddle) * DEFLECTION);
      }
    }

    /** The ball-lost part of `update`. */
    method LoseBallStep(rightward: bool)
      modifies this`lives, this`running, this`highScore, this`ball, this`paddle
      ensures Model() == LoseBall(old(Model()), width, height, rightward)
    {
      var w := width as real;
      var h := height as real;
      if ball.y - ball.r > h {
        lives := lives - 1;
        if lives <= 0 {
          running := false;
          if score > highScore {
            highScore := score;
          }
        } else {
          ball := ball.(x := w / 2.0, y := h / 2.0,
                        vx := LAUNCH_SPEED * (if rightward then 1.0 else -1.0), vy := -LAUNCH_SPEED);
          paddle := paddle.(x := (w - paddle.w) / 2.0);
        }
      }
    }

    /** The level-clear check that ends `update`. */
    method ClearLevelStep()
      requires bricks.Length == GRID_SIZE && brickW == BrickWidth(width)
      modifies this`ball, this`lives, bricks
      ensures Model() == ClearLevel(old(Model()), width, height)
    {
      var remaining := Remaining();
      if remaining == 0 {
        ResetBricks();
        ball := ball.(x := width as real / 2.0, y := height as real / 2.0,
                      vx := ball.vx * 2.0, vy := -Abs(ball.vy) * 2.0);
        lives := Min(MAX_LIVES, lives + 1);
      }
    }

    /** One tick of `loop` (without drawing and rescheduling). */
    method Loop(rightward: bool)
      requires Valid()
      modifies this, bricks
      ensures Valid()
      ensures Model() == Frame(old(Model()), width, height, rightward)
    {
      ghost var s0 := Model();
      MovePaddleStep();
      PaddleMoveKeepsValid(s0, paddle, width);
      if running {
        Update(rightward);
      }
    }

    /** The paddle movement and clamp at the top of `loop`. */
    method MovePaddleStep()
      modifies this`paddle
      ensures paddle == MovePaddle(old(paddle), leftDown, rightDown, width as real)
    {
      if leftDown {
        paddle := paddle.(x := paddle.x - paddle.speed);
      }
      if rightDown {
        paddle := paddle.(x := paddle.x + paddle.speed);
      }
      if paddle.x < 0.0 {
        paddle := paddle.(x := 0.0);
      }
      if paddle.x + paddle.w > width as real {
        paddle := paddle.(x := width as real - paddle.w);
      }
    }

    /** The start button's click handler. */
    method Start(rightward: bool)
      requires Valid()
      modifies this, bricks
      ensures Valid()
      ensures Model() == Restart(old(Model()), width, height, rightward)
    {
      ghost var s0 := Model();
      score := 0;
      lives := START_LIVES;
      paddle := paddle.(w := PADDLE_W);
      paddle := paddle.(x := (width as real - paddle.w) / 2.0);
      ball := ball.(x := width as real / 2.0, y := height as real / 2.0,
                    vx := LAUNCH_SPEED * (if rightward then 1.0 else -1.0), vy := -LAUNCH_SPEED);
      ResetBricks();
      running := true;
      RestartValid(s0, width, height, rightward);
    }

    /** `window.onkeydown`. */
    method OnKeyDown(key: string)
      requires Valid()
      modifies this`leftDown, this`rightDown, this`running
      ensures Valid()
      ensures Model() == Pressed(old(Model()), key)
    {
      if key == "ArrowLeft" {
        leftDown := true;
      }
      if key == "ArrowRight" {
        rightDown := true;
      }
      if key == " " {
        running := true;
      }
    }

    /** `window.onkeyup`. */
    method OnKeyUp(key: string)
      requires Valid()
      modifies this`leftDown, this`rightDown
      ensures Valid()
      ensures Model() == Released(old(Model()), key)
    {
      if key == "ArrowLeft" {
        leftDown := false;
      }
      if key == "ArrowRight" {
        rightDown := false;
      }
    }
  }
}
