/** Game-wide constants, enumerations and the few JavaScript numeric
    operations the game relies on (Math.floor, Math.round, `%`, and
    `Math.floor(Math.random() * n)`). */
module Config {

  // Play field
  const CanvasWidth: real := 955.0
  const CanvasHeight: real := 800.0

  // Balls (every ball is created with this radius)
  const BallRadius: real := 10.0

  // Bricks and the grid they sit on
  const BrickWidth: real := 60.0
  const BrickHeight: real := 30.0
  const BrickRows: nat := 6
  const BrickCols: nat := 14
  const BrickPadding: real := 5.0
  const OffsetTop: real := 50.0
  const OffsetLeft: real := 25.0
  const PaletteSize: nat := 10

  /** Horizontal distance between two neighbouring grid columns (65). */
  const ColPitch: real := BrickWidth + BrickPadding
  /** Vertical distance between two neighbouring grid rows (35): the
      distance bricks and power-ups move down at the end of a round. */
  const RowPitch: real := BrickHeight + BrickPadding

  // Power-ups
  const PowerUpSize: real := 20.0

  /** A brick whose bottom edge reaches this line ends the game (780). */
  const GameOverLine: real := CanvasHeight - BallRadius * 2.0

  /** Collision kinds, in the order the source enumerates them. */
  datatype CollisionType =
    | NoCollision
    | Top | Bottom | Left | Right
    | CornerTopLeft | CornerTopRight | CornerBottomLeft | CornerBottomRight
  {
    predicate IsEdge() { Top? || Bottom? || Left? || Right? }
    predicate IsCorner() { CornerTopLeft? || CornerTopRight? || CornerBottomLeft? || CornerBottomRight? }
  }

  datatype GameState = Ready | Aiming | Shooting | GameOver

  datatype Option<T> = None | Some(value: T)

  function Abs(x: real): (r: real)
    ensures r >= 0.0 && (r == x || r == -x)
  {
    if x < 0.0 then -x else x
  }

  /** `Math.round`: rounds half-way values up, towards positive infinity. */
  function JsRound(x: real): (n: int)
    ensures x - 0.5 < n as real <= x + 0.5
  {
    (x + 0.5).Floor
  }

  /** JavaScript's `%` on integers: the remainder takes the sign of the
      dividend (Dafny's own `%` is Euclidean and never negative). */
  function JsRem(a: int, b: int): (r: int)
    requires b > 0
    ensures -b < r < b
    ensures a >= 0 ==> r == a % b
    ensures a < 0 ==> r <= 0
  {
    if a >= 0 then a % b
    else -((-a) % b)
  }

  /** The truncating remainder is odd in its dividend, which tells it
      apart from Dafny's Euclidean `%` on negative numbers. */
  lemma JsRemOdd(a: int, b: int)
    requires b > 0
    ensures JsRem(-a, b) == -JsRem(a, b)
  {
  }

  /** A value of `Math.random()`. */
  predicate IsRandom(r: real) { 0.0 <= r < 1.0 }

  predicate AllRandom(draws: seq<real>) { forall k :: 0 <= k < |draws| ==> IsRandom(draws[k]) }

  /** `Math.floor(Math.random() * n)`: a uniformly drawn index below n. */
  function RandomIndex(r: real, n: nat): (j: nat)
    requires IsRandom(r) && n > 0
    ensures j < n
    ensures j as real <= r * n as real < j as real + 1.0
  {
    assert 0.0 <= r * n as real < n as real by {
      assert r * n as real <= r * n as real;
    }
    (r * n as real).Floor
  }
}
