/** The brick grid: layout constants, the brick record, the layout formulas of
    `resetBricks` and the count of bricks still standing. */
module Bricks {

  const ROWS: int := 5
  const COLS: int := 8
  /** Number of bricks in a full grid; the grid is stored row-major, brick (r, c) at r * COLS + c. */
  const GRID_SIZE: int := ROWS * COLS
  const OFFSET_TOP: int := 40
  const OFFSET_LEFT: int := 20
  const BRICK_PADDING: int := 6
  const BRICK_H: int := 20

  datatype Brick = Brick(x: int, y: int, w: int, h: int, alive: bool, hits: int)

  /** Width of one brick: the floor of the width left between the margins and the
      gaps, shared among COLS bricks. */
  function BrickWidth(width: int): (bw: int)
    ensures COLS * bw <= width - 2 * OFFSET_LEFT - (COLS - 1) * BRICK_PADDING < COLS * (bw + 1)
  {
    (width - 2 * OFFSET_LEFT - (COLS - 1) * BRICK_PADDING) / COLS
  }

  /** The brick that a fresh layout puts at row r, column c. */
  function LaidOut(width: int, r: int, c: int): Brick
  {
    var bw := BrickWidth(width);
    Brick(OFFSET_LEFT + c * (bw + BRICK_PADDING), OFFSET_TOP + r * (BRICK_H + BRICK_PADDING), bw, BRICK_H, true, 1)
  }

  /** The whole fresh grid, row-major. */
  function FreshGrid(width: int): seq<Brick>
  {
    seq(GRID_SIZE, k => LaidOut(width, k / COLS, k % COLS))
  }

  /** Every brick sits where the layout put it; only its alive flag may differ. */
  ghost predicate InLayout(bs: seq<Brick>, width: int)
  {
    |bs| == GRID_SIZE &&
    forall k :: 0 <= k < |bs| ==> bs[k] == LaidOut(width, k / COLS, k % COLS).(alive := bs[k].alive)
  }

  /** Number of bricks still alive (the `remaining` counter). */
  function AliveCount(bs: seq<Brick>): (n: nat)
    ensures n <= |bs|
  {
    if bs == [] then 0
    else AliveCount(bs[..|bs| - 1]) + (if bs[|bs| - 1].alive then 1 else 0)
  }

  /** Some brick is left exactly when the count is positive. */
  lemma {:induction false} AliveCountPositive(bs: seq<Brick>)
    ensures AliveCount(bs) > 0 <==> exists k :: 0 <= k < |bs| && bs[k].alive
  {
    if bs != [] {
      var n := |bs|;
      var front := bs[..n - 1];
      AliveCountPositive(front);
      if AliveCount(front) > 0 {
        var k :| 0 <= k < |front| && front[k].alive;
        assert bs[k] == front[k];
      } else {
        assert forall k :: 0 <= k < n - 1 ==> bs[k] == front[k];
      }
    }
  }

  /** The count equals the length exactly when every brick is alive. */
  lemma {:induction false} AliveCountFull(bs: seq<Brick>)
    ensures AliveCount(bs) == |bs| <==> forall k :: 0 <= k < |bs| ==> bs[k].alive
  {
    if bs != [] {
      var n := |bs|;
      var front := bs[..n - 1];
      AliveCountFull(front);
      if forall k :: 0 <= k < n ==> bs[k].alive {
        forall k | 0 <= k < |front| ensures front[k].alive {
          assert front[k] == bs[k];
        }
      } else if AliveCount(bs) == n {
        assert AliveCount(front) == n - 1 && bs[n - 1].alive;
        forall k | 0 <= k < n ensures bs[k].alive {
          if k < n - 1 {
            assert bs[k] == front[k];
          }
        }
      }
    }
  }

  /** A fresh grid has GRID_SIZE bricks, all alive with one hit, all in layout. */
  lemma FreshGridFull(width: int)
    ensures InLayout(FreshGrid(width), width)
    ensures forall k :: 0 <= k < GRID_SIZE ==> FreshGrid(width)[k].alive && FreshGrid(width)[k].hits == 1
    ensures AliveCount(FreshGrid(width)) == GRID_SIZE
  {
    AliveCountFull(FreshGrid(width));
  }

  /** Brick (r, c) of a fresh grid, stored at r * COLS + c: its position follows the
      column and row steps, its size is BrickWidth by BRICK_H, and it is alive
      with one hit. */
  lemma FreshGridCell(width: int, r: int, c: int)
    requires 0 <= r < ROWS && 0 <= c < COLS
    ensures 0 <= r * COLS + c < GRID_SIZE
    ensures FreshGrid(width)[r * COLS + c] ==
      Brick(OFFSET_LEFT + c * (BrickWidth(width) + BRICK_PADDING),
            OFFSET_TOP + r * (BRICK_H + BRICK_PADDING),
            BrickWidth(width), BRICK_H, true, 1)
  {
  }

  /** Two bricks whose interiors intersect. */
  predicate CellsOverlap(a: Brick, b: Brick)
  {
    a.x < b.x + b.w && b.x < a.x + a.w && a.y < b.y + b.h && b.y < a.y + a.h
  }

  lemma MulMonotone(a: int, b: int, k: int)
    requires a <= b && 0 <= k
    ensures a * k <= b * k
  {
    assert b * k - a * k == (b - a) * k;
  }

  /** Distinct cells of a fresh layout never overlap: columns are BRICK_PADDING
      apart and so are rows. */
  lemma LayoutDisjoint(width: int, r1: int, c1: int, r2: int, c2: int)
    requires 0 <= r1 < ROWS && 0 <= c1 < COLS && 0 <= r2 < ROWS && 0 <= c2 < COLS
    requires r1 != r2 || c1 != c2
    ensures !CellsOverlap(LaidOut(width, r1, c1), LaidOut(width, r2, c2))
  {
    var bw := BrickWidth(width);
    var step := bw + BRICK_PADDING;
    if bw >= 0 {
      if c1 < c2 {
        MulMonotone(c1 + 1, c2, step);
        assert (c1 + 1) * step == c1 * step + step;
      } else if c2 < c1 {
        MulMonotone(c2 + 1, c1, step);
        assert (c2 + 1) * step == c2 * step + step;
      }
    }
  }

  /** When the canvas leaves room for the bricks, every cell lies between the
      side margins, and the rows fill the band below OFFSET_TOP. */
  lemma LayoutWithinMargins(width: int, r: int, c: int)
    requires 0 <= r < ROWS && 0 <= c < COLS
    requires 2 * OFFSET_LEFT + (COLS - 1) * BRICK_PADDING <= width
    ensures var b := LaidOut(width, r, c);
      OFFSET_LEFT <= b.x && b.x + b.w <= width - OFFSET_LEFT &&
      OFFSET_TOP <= b.y && b.y + b.h <= OFFSET_TOP + ROWS * BRICK_H + (ROWS - 1) * BRICK_PADDING
  {
    var bw := BrickWidth(width);
    var step := bw + BRICK_PADDING;
    MulMonotone(0, c, step);
    MulMonotone(c, COLS - 1, step);
  }
}
