/** Ball and paddle records and the collision responses of one physics step:
    the Euler move, the three wall bounces, the paddle bounce and the brick
    strikes. Positions and velocities are exact reals. */
module Physics {
  import opened Bricks

  /** Largest horizontal speed the paddle bounce lets through. */
  const MAX_SPEED_X: real := 8.0
  /** Horizontal speed added per unit of normalised hit offset on the paddle. */
  const DEFLECTION: real := 1.2

  datatype Ball = Ball(x: real, y: real, r: real, vx: real, vy: real)
  datatype Paddle = Paddle(x: real, y: real, w: real, h: real, speed: real)

  function Abs(v: real): real
  {
    if v < 0.0 then -v else v
  }

  /** Math.sign on reals. */
  function Sign(v: real): real
  {
    if v > 0.0 then 1.0 else if v < 0.0 then -1.0 else 0.0
  }

  /** The paddle part of one frame: move by `speed` for each held arrow key, then
      clamp to the canvas. */
  function MovePaddle(p: Paddle, left: bool, right: bool, width: real): (o: Paddle)
    ensures o == p.(x := o.x)
    ensures p.w <= width ==> 0.0 <= o.x <= width - p.w
    ensures var target := p.x - (if left then p.speed else 0.0) + (if right then p.speed else 0.0);
      (0.0 <= target && target + p.w <= width ==> o.x == target) &&
      (target < 0.0 && p.w <= width ==> o.x == 0.0) &&
      (target + p.w > width ==> o.x == width - p.w)
  {
    var x0 := if left then p.x - p.speed else p.x;
    var x1 := if right then x0 + p.speed else x0;
    var x2 := if x1 < 0.0 then 0.0 else x1;
    var x3 := if x2 + p.w > width then width - p.w else x2;
    p.(x := x3)
  }

  /** Explicit Euler step: one frame's velocity added to the position. */
  function Advance(b: Ball): Ball
  {
    b.(x := b.x + b.vx, y := b.y + b.vy)
  }

  /** Right, left and top wall bounces, in that order. */
  function BounceWalls(b: Ball, width: real): (o: Ball)
    ensures o.r == b.r && Abs(o.vx) == Abs(b.vx) && Abs(o.vy) == Abs(b.vy)
    ensures b.y - b.r < 0.0 ==> o.y == b.r && o.vy == -b.vy
    ensures b.y - b.r >= 0.0 ==> o.y == b.y && o.vy == b.vy
    ensures o.y >= b.r
    ensures 2.0 * b.r <= width ==>
      b.r <= o.x <= width - b.r &&
      (b.x + b.r > width ==> o.x == width - b.r && o.vx == -b.vx) &&
      (b.x - b.r < 0.0 ==> o.x == b.r && o.vx == -b.vx) &&
      (b.r <= b.x <= width - b.r ==> o.x == b.x && o.vx == b.vx)
  {
    var b1 := if b.x + b.r > width then b.(x := width - b.r, vx := -b.vx) else b;
    var b2 := if b1.x - b1.r < 0.0 then b1.(x := b1.r, vx := -b1.vx) else b1;
    if b2.y - b2.r < 0.0 then b2.(y := b2.r, vy := -b2.vy) else b2
  }

  /** The paddle test: the ball's lower edge strictly inside the paddle's band and
      its centre strictly inside the paddle's span. */
  predicate HitsPaddle(b: Ball, p: Paddle)
  {
    b.y + b.r > p.y && b.y + b.r < p.y + p.h && b.x > p.x && b.x < p.x + p.w
  }

  /** Offset of the ball from the paddle's centre, in half paddle widths. */
  function HitPos(b: Ball, p: Paddle): (h: real)
    requires p.x < b.x < p.x + p.w
    ensures -1.0 < h < 1.0
    ensures h == 0.0 <==> b.x == p.x + p.w / 2.0
    ensures h > 0.0 <==> b.x > p.x + p.w / 2.0
  {
    var half := p.w / 2.0;
    var d := b.x - (p.x + half);
    QuotientWithinUnit(d, half);
    d / half
  }

  /** A quotient whose numerator is smaller in magnitude than its positive
      denominator lies strictly between -1 and 1 and has the numerator's sign. */
  lemma QuotientWithinUnit(d: real, half: real)
    requires 0.0 < half && -half < d < half
    ensures -1.0 < d / half < 1.0
    ensures d / half == 0.0 <==> d == 0.0
    ensures d / half > 0.0 <==> d > 0.0
  {
    var q := d / half;
    assert q * half == d;
    PositiveFactor(1.0 - q, half);
    PositiveFactor(q + 1.0, half);
  }

  lemma PositiveFactor(a: real, b: real)
    requires 0.0 < b && 0.0 < a * b
    ensures 0.0 < a
  {
  }

  /** Horizontal speed limit: magnitude at most MAX_SPEED_X, sign kept. */
  function ClampSpeed(v: real): (o: real)
    ensures Abs(o) <= MAX_SPEED_X
    ensures Abs(v) <= MAX_SPEED_X ==> o == v
    ensures Abs(v) > MAX_SPEED_X ==> Abs(o) == MAX_SPEED_X
    ensures Sign(o) == Sign(v)
  {
    if Abs(v) > MAX_SPEED_X then MAX_SPEED_X * Sign(v) else v
  }

  /** The paddle bounce. */
  function BouncePaddle(b: Ball, p: Paddle): (o: Ball)
    ensures !HitsPaddle(b, p) ==> o == b
    ensures HitsPaddle(b, p) ==>
      o.x == b.x && o.r == b.r && o.y + o.r == p.y && o.vy == -b.vy &&
      Abs(o.vx) <= MAX_SPEED_X &&
      o.vx == ClampSpeed(b.vx + HitPos(b, p) * DEFLECTION)
    ensures HitsPaddle(b, p) && Abs(b.vx + HitPos(b, p) * DEFLECTION) <= MAX_SPEED_X ==>
      Abs(o.vx - b.vx) < DEFLECTION &&
      (b.x > p.x + p.w / 2.0 ==> o.vx > b.vx) &&
      (b.x < p.x + p.w / 2.0 ==> o.vx < b.vx) &&
      (b.x == p.x + p.w / 2.0 ==> o.vx == b.vx)
  {
    if HitsPaddle(b, p) then
      var hitPos := HitPos(b, p);
      b.(y := p.y - b.r, vy := -b.vy, vx := ClampSpeed(b.vx + hitPos * DEFLECTION))
    else b
  }

  /** The ball's motion in one frame before any brick is considered. */
  function MoveBall(b: Ball, p: Paddle, width: real): Ball
  {
    BouncePaddle(BounceWalls(Advance(b), width), p)
  }

  /** The brick test: the ball's bounding square strictly overlaps the brick. */
  predicate BallTouches(b: Ball, k: Brick)
  {
    b.x + b.r > k.x as real && b.x - b.r < (k.x + k.w) as real &&
    b.y + b.r > k.y as real && b.y - b.r < (k.y + k.h) as real
  }

  /** One brick after the ball's pass: an alive brick that the ball overlaps dies;
      nothing else about it changes, and a dead brick stays as it is. */
  function Strike(b: Ball, k: Brick): (o: Brick)
    ensures o == k.(alive := o.alive)
    ensures o.alive <==> k.alive && !BallTouches(b, k)
  {
    if k.alive && BallTouches(b, k) then k.(alive := false) else k
  }

  /** The grid after the ball's pass: every brick struck independently (there is no
      early exit from the scan). */
  function Struck(b: Ball, bs: seq<Brick>): seq<Brick>
  {
    seq(|bs|, k requires 0 <= k < |bs| => Strike(b, bs[k]))
  }

  /** Number of bricks the pass destroys. */
  function StruckCount(b: Ball, bs: seq<Brick>): (n: nat)
    ensures n <= AliveCount(bs)
  {
    if bs == [] then 0
    else
      var last := bs[|bs| - 1];
      StruckCount(b, bs[..|bs| - 1]) + (if last.alive && BallTouches(b, last) then 1 else 0)
  }

  /** A velocity component negated k times. */
  function Flip(v: real, k: nat): real
  {
    if k == 0 then v else -Flip(v, k - 1)
  }

  /** Negating k times is the identity for even k and one negation for odd k, so
      two hits in one frame cancel. */
  lemma {:induction false} FlipParity(v: real, k: nat)
    ensures Flip(v, k) == if k % 2 == 0 then v else -v
  {
    if k > 0 {
      FlipParity(v, k - 1);
    }
  }

  /** The pass destroys exactly StruckCount bricks: the alive count drops by it. */
  lemma {:induction false} StrikeAccounting(b: Ball, bs: seq<Brick>)
    ensures AliveCount(Struck(b, bs)) + StruckCount(b, bs) == AliveCount(bs)
  {
    if bs != [] {
      var n := |bs|;
      var front := bs[..n - 1];
      StrikeAccounting(b, front);
      assert Struck(b, bs)[..n - 1] == Struck(b, front);
    }
  }
}
