/** Collision geometry: the wall test, the point-in-rectangle test, the
    overlap classifier for a ball against a rectangle, the reflection rule,
    the swept ball-against-rectangle test and the forgiving power-up
    pickup test.

    Distances are compared with a radius through their squares, which is
    what `Math.sqrt(d) <= r` means for a non-negative `d`. The square root
    in the corner quadratic and the angle computed by `Math.atan2` are
    supplied from outside as `Numerics`; a `Math.random()` draw is an
    argument. */
module Collision {
  import opened Config
  import opened Entities

  /** The two transcendental functions the collision code calls:
      `sqrt` stands for `Math.sqrt`, `atan2Deg(y, x)` for
      `Math.atan2(y, x) * 180 / Math.PI`. */
  datatype Numerics = Numerics(sqrt: real -> real, atan2Deg: (real, real) -> real)

  /** The squared length of the vector (dx, dy). */
  function Len2(dx: real, dy: real): real {
    dx * dx + dy * dy
  }

  /** `Math.sqrt(dx * dx + dy * dy) <= r` */
  predicate WithinRadius(dx: real, dy: real, r: real) {
    0.0 <= r && Len2(dx, dy) <= r * r
  }

  // ---------------------------------------------------------------------
  // Walls
  // ---------------------------------------------------------------------

  /** The first play-field side the ball touches or crosses, checked in the
      order left, right, top, bottom. */
  function WallCollision(b: Ball): (r: CollisionType)
    ensures r == NoCollision <==>
              BallRadius < b.x < CanvasWidth - BallRadius && BallRadius < b.y < CanvasHeight - BallRadius
    ensures r == NoCollision || r.IsEdge()
    ensures r == Left <==> b.x <= BallRadius
    ensures r == Right <==> BallRadius < b.x && CanvasWidth - BallRadius <= b.x
    ensures r == Top <==> BallRadius < b.x < CanvasWidth - BallRadius && b.y <= BallRadius
    ensures r == Bottom <==>
              BallRadius < b.x < CanvasWidth - BallRadius && BallRadius < b.y && CanvasHeight - BallRadius <= b.y
  {
    if b.x - BallRadius <= 0.0 then Left
    else if b.x + BallRadius >= CanvasWidth then Right
    else if b.y - BallRadius <= 0.0 then Top
    else if b.y + BallRadius >= CanvasHeight then Bottom
    else NoCollision
  }

  // ---------------------------------------------------------------------
  // Point in rectangle
  // ---------------------------------------------------------------------

  predicate IsPointInRect(x: real, y: real, rect: Rect) {
    x >= rect.x && x <= rect.x + rect.width && y >= rect.y && y <= rect.y + rect.height
  }

  /** The test is inclusive: all four corners and every boundary point of a
      rectangle are inside it, and nothing beyond the boundary is. */
  lemma PointInRectInclusive(rect: Rect, fx: real, fy: real)
    requires rect.width >= 0.0 && rect.height >= 0.0
    ensures 0.0 <= fx <= 1.0 && 0.0 <= fy <= 1.0 ==>
              IsPointInRect(rect.x + fx * rect.width, rect.y + fy * rect.height, rect)
    ensures IsPointInRect(rect.x, rect.y, rect) && IsPointInRect(rect.x + rect.width, rect.y, rect)
    ensures IsPointInRect(rect.x, rect.y + rect.height, rect)
    ensures IsPointInRect(rect.x + rect.width, rect.y + rect.height, rect)
    ensures fx < 0.0 || fx > 1.0 ==> !IsPointInRect(rect.x + fx * rect.width, rect.y, rect) || rect.width == 0.0
  {
    if 0.0 <= fx <= 1.0 {
      assert fx * rect.width <= rect.width by {
        assert (1.0 - fx) * rect.width >= 0.0;
      }
    }
    if 0.0 <= fy <= 1.0 {
      assert fy * rect.height <= rect.height by {
        assert (1.0 - fy) * rect.height >= 0.0;
      }
    }
    if fx < 0.0 && rect.width > 0.0 {
      assert fx * rect.width < 0.0;
    }
    if fx > 1.0 && rect.width > 0.0 {
      assert (fx - 1.0) * rect.width > 0.0;
    }
  }

  // ---------------------------------------------------------------------
  // Overlap classifier
  // ---------------------------------------------------------------------

  /** The ball's bounding square and the rectangle are strictly apart;
      touching counts as overlapping. */
  predicate BoxesDisjoint(b: Ball, rect: Rect) {
    b.x + BallRadius < rect.x || b.x - BallRadius > rect.x + rect.width ||
    b.y + BallRadius < rect.y || b.y - BallRadius > rect.y + rect.height
  }

  /** A ball whose centre is in the rectangle always overlaps it. */
  lemma CentreInRectOverlaps(b: Ball, rect: Rect)
    requires IsPointInRect(b.x, b.y, rect)
    ensures !BoxesDisjoint(b, rect)
  {
  }

  datatype Corner = Corner(kind: CollisionType, x: real, y: real)

  /** The four corners in the order the source checks them. */
  function Corners(rect: Rect): (cs: seq<Corner>)
    ensures |cs| == 4 && forall i :: 0 <= i < 4 ==> cs[i].kind.IsCorner()
  {
    [ Corner(CornerTopLeft, rect.x, rect.y),
      Corner(CornerTopRight, rect.x + rect.width, rect.y),
      Corner(CornerBottomLeft, rect.x, rect.y + rect.height),
      Corner(CornerBottomRight, rect.x + rect.width, rect.y + rect.height) ]
  }

  /** The kind of the first corner within one radius of (x, y). */
  function FirstCornerWithin(x: real, y: real, cs: seq<Corner>): (r: Option<CollisionType>)
    ensures r.Some? ==> exists i :: 0 <= i < |cs| && cs[i].kind == r.value &&
                                    WithinRadius(x - cs[i].x, y - cs[i].y, BallRadius) &&
                                    forall j :: 0 <= j < i ==> !WithinRadius(x - cs[j].x, y - cs[j].y, BallRadius)
    ensures r.None? <==> forall i :: 0 <= i < |cs| ==> !WithinRadius(x - cs[i].x, y - cs[i].y, BallRadius)
  {
    if cs == [] then None
    else if WithinRadius(x - cs[0].x, y - cs[0].y, BallRadius) then Some(cs[0].kind)
    else
      var r := FirstCornerWithin(x, y, cs[1..]);
      assert forall i :: 1 <= i < |cs| ==> cs[i] == cs[1..][i - 1];
      assert r.Some? ==> exists i :: 1 <= i < |cs| && cs[i].kind == r.value &&
                                    WithinRadius(x - cs[i].x, y - cs[i].y, BallRadius) &&
                                    forall j :: 0 <= j < i ==> !WithinRadius(x - cs[j].x, y - cs[j].y, BallRadius);
      r
  }

  /** `getCornerCollision`: the first corner, in the order top-left,
      top-right, bottom-left, bottom-right, within one radius of the
      ball's centre. */
  function CornerCollision(b: Ball, rect: Rect): Option<CollisionType> {
    FirstCornerWithin(b.x, b.y, Corners(rect))
  }

  function Min4(a: real, b: real, c: real, d: real): (m: real)
    ensures m <= a && m <= b && m <= c && m <= d
    ensures m == a || m == b || m == c || m == d
  {
    var ab := if a <= b then a else b;
    var cd := if c <= d then c else d;
    if ab <= cd then ab else cd
  }

  /** Classifies a ball overlapping a rectangle: a corner within one radius
      of the centre (first in corner order) wins; otherwise the side nearest
      to the centre, but only if the velocity points into that side. */
  function BallRectCollision(b: Ball, rect: Rect): (r: CollisionType)
    ensures BoxesDisjoint(b, rect) ==> r == NoCollision
    ensures r.IsCorner() ==>
              exists i :: 0 <= i < 4 && Corners(rect)[i].kind == r &&
                          WithinRadius(b.x - Corners(rect)[i].x, b.y - Corners(rect)[i].y, BallRadius)
    ensures r.IsEdge() ==> CornerCollision(b, rect).None?
    ensures !BoxesDisjoint(b, rect) && CornerCollision(b, rect).Some? ==> r == CornerCollision(b, rect).value
    ensures r == Left ==> b.vx > 0.0
    ensures r == Right ==> b.vx < 0.0
    ensures r == Top ==> b.vy > 0.0
    ensures r == Bottom ==> b.vy < 0.0
  {
    if BoxesDisjoint(b, rect) then NoCollision
    else match CornerCollision(b, rect)
      case Some(kind) => kind
      case None =>
        var distToLeft := Abs(b.x - rect.x);
        var distToRight := Abs(b.x - (rect.x + rect.width));
        var distToTop := Abs(b.y - rect.y);
        var distToBottom := Abs(b.y - (rect.y + rect.height));
        var minDist := Min4(distToLeft, distToRight, distToTop, distToBottom);
        if minDist == distToLeft && b.vx > 0.0 then Left
        else if minDist == distToRight && b.vx < 0.0 then Right
        else if minDist == distToTop && b.vy > 0.0 then Top
        else if minDist == distToBottom && b.vy < 0.0 then Bottom
        else NoCollision
  }

  /** Distance from the ball's centre line to one side of the rectangle. */
  function SideDistance(b: Ball, rect: Rect, side: CollisionType): real {
    match side
    case Left => Abs(b.x - rect.x)
    case Right => Abs(b.x - (rect.x + rect.width))
    case Top => Abs(b.y - rect.y)
    case Bottom => Abs(b.y - (rect.y + rect.height))
    case _ => 0.0
  }

  /** No side is closer to the centre than `side`. */
  predicate Nearest(b: Ball, rect: Rect, side: CollisionType) {
    SideDistance(b, rect, side) <= SideDistance(b, rect, Left) &&
    SideDistance(b, rect, side) <= SideDistance(b, rect, Right) &&
    SideDistance(b, rect, side) <= SideDistance(b, rect, Top) &&
    SideDistance(b, rect, side) <= SideDistance(b, rect, Bottom)
  }

  /** A side reported by the classifier is one nearest to the centre. */
  lemma {:induction false} ReportedSideIsNearest(b: Ball, rect: Rect)
    ensures var r := BallRectCollision(b, rect);
            r.IsEdge() ==> Nearest(b, rect, r)
  {
  }

  /** Conversely, with no corner in reach, a nearest side the centre moves
      into is reported, the first one in the order left, right, top,
      bottom when several are nearest. */
  lemma {:induction false} NearestSideIsReported(b: Ball, rect: Rect, side: CollisionType)
    requires !BoxesDisjoint(b, rect) && CornerCollision(b, rect).None?
    requires side.IsEdge()
    requires Nearest(b, rect, side)
    requires side == Left ==> b.vx > 0.0
    requires side == Right ==> b.vx < 0.0
    requires side == Top ==> b.vy > 0.0
    requires side == Bottom ==> b.vy < 0.0
    ensures BallRectCollision(b, rect).IsEdge()
  {
  }

  // ---------------------------------------------------------------------
  // Reflection
  // ---------------------------------------------------------------------

  /** The incidence angle folded into [0, 90] degrees. */
  function NormalizedAngle(atan2Deg: real): (a: real)
    ensures Abs(atan2Deg) <= 180.0 ==> 0.0 <= a <= 90.0
  {
    var angle := Abs(atan2Deg);
    if angle > 90.0 then 180.0 - angle else angle
  }

  /** Within half a degree of 45: either axis may be reflected. */
  predicate IsDiagonal(atan2Deg: real) {
    Abs(NormalizedAngle(atan2Deg) - 45.0) <= 0.5
  }

  /** The velocity after a collision of the given kind. `atan2Deg` is the
      direction of the incoming velocity in degrees and `coin` a
      `Math.random()` draw; both are used for corners only. */
  function Bounce(b: Ball, kind: CollisionType, atan2Deg: real, coin: real): (r: Ball)
    ensures r.x == b.x && r.y == b.y && r.active == b.active
    ensures Abs(r.vx) == Abs(b.vx) && Abs(r.vy) == Abs(b.vy)
    ensures kind.IsCorner() ==> (r.vx == -b.vx && r.vy == b.vy) || (r.vx == b.vx && r.vy == -b.vy)
  {
    match kind
    case Left => b.(vx := -b.vx)
    case Right => b.(vx := -b.vx)
    case Top => b.(vy := -b.vy)
    case Bottom => b.(vy := -b.vy)
    case NoCollision => b
    case _ =>
      if IsDiagonal(atan2Deg) then
        if coin < 0.5 then b.(vx := -b.vx) else b.(vy := -b.vy)
      else if NormalizedAngle(atan2Deg) < 45.0 then b.(vx := -b.vx)
      else b.(vy := -b.vy)
  }

  /** Side bounces reverse exactly the component perpendicular to the side;
      a second bounce off the same side restores the velocity. */
  lemma {:induction false} EdgeBounceInvolution(b: Ball, kind: CollisionType, a1: real, c1: real, a2: real, c2: real)
    requires kind.IsEdge() || kind == NoCollision
    ensures Bounce(Bounce(b, kind, a1, c1), kind, a2, c2) == b
    ensures kind == Left || kind == Right ==> Bounce(b, kind, a1, c1) == b.(vx := -b.vx)
    ensures kind == Top || kind == Bottom ==> Bounce(b, kind, a1, c1) == b.(vy := -b.vy)
    ensures kind == NoCollision ==> Bounce(b, kind, a1, c1) == b
  {
  }

  /** Outside the 45-degree band the random draw plays no part: shallow
      incidences reverse vx, steep ones reverse vy. */
  lemma {:induction false} CornerBounceDeterministic(b: Ball, kind: CollisionType, a: real, c1: real, c2: real)
    requires kind.IsCorner() && !IsDiagonal(a)
    ensures Bounce(b, kind, a, c1) == Bounce(b, kind, a, c2)
    ensures NormalizedAngle(a) < 45.0 ==> Bounce(b, kind, a, c1).vy == b.vy
    ensures NormalizedAngle(a) > 45.0 ==> Bounce(b, kind, a, c1).vx == b.vx
  {
  }

  // ---------------------------------------------------------------------
  // Swept (continuous) ball-against-rectangle test
  // ---------------------------------------------------------------------

  /** A contact along the path: its kind, the fraction `t` of the path
      travelled, and the ball centre at contact. */
  datatype Hit = Hit(kind: CollisionType, t: real, x: real, y: real)

  /** The path is long enough for the swept test; otherwise the source falls
      back to the overlap classifier at the end point. */
  predicate Moving(b: Ball, nb: Ball) {
    !(Abs(nb.x - b.x) < 0.001 && Abs(nb.y - b.y) < 0.001)
  }

  lemma SquareNonNegative(x: real)
    ensures x * x >= 0.0
  {
    if x < 0.0 {
      assert x * x == (-x) * (-x);
    }
  }

  lemma SquareBound(m: real, eps: real)
    requires eps > 0.0 && m >= eps
    ensures m * m >= eps * eps
  {
    assert m * m >= eps * m;
    assert eps * m >= eps * eps;
  }

  lemma SquareAtLeast(x: real, eps: real)
    requires eps > 0.0 && Abs(x) >= eps
    ensures x * x >= eps * eps
  {
    if x >= 0.0 {
      SquareBound(x, eps);
    } else {
      SquareBound(-x, eps);
      assert x * x == (-x) * (-x);
    }
  }

  /** Scaling by a positive factor keeps a strict order. */
  lemma ScaleStrict(u: real, v: real, d: real)
    requires u < v && d > 0.0
    ensures u * d < v * d
  {
    assert v * d - u * d == (v - u) * d;
  }

  lemma ScaleAtMost(u: real, v: real, d: real)
    requires u <= v && d > 0.0
    ensures u * d <= v * d
  {
    assert v * d - u * d == (v - u) * d;
  }

  /** A path with some component of size at least `eps > 0` has a
      squared length of at least eps^2. */
  lemma LengthAtLeast(dx: real, dy: real, eps: real)
    requires eps > 0.0 && (Abs(dx) >= eps || Abs(dy) >= eps)
    ensures Len2(dx, dy) >= eps * eps
  {
    SquareNonNegative(dx);
    SquareNonNegative(dy);
    if Abs(dx) >= eps {
      SquareAtLeast(dx, eps);
    } else {
      SquareAtLeast(dy, eps);
    }
  }

  lemma MovingHasLength(b: Ball, nb: Ball)
    requires Moving(b, nb)
    ensures Len2(nb.x - b.x, nb.y - b.y) > 0.0
  {
    LengthAtLeast(nb.x - b.x, nb.y - b.y, 0.001);
  }

  /** The coordinate reached from `p` after the fraction `t` of a move by
      `d`. */
  function Along(p: real, d: real, t: real): real {
    p + d * t
  }

  /** The squared distance between (x, y) and (cx, cy). */
  function SqDist(x: real, y: real, cx: real, cy: real): real {
    Len2(x - cx, y - cy)
  }

  /** The path fraction at which the coordinate `p`, moving by `d`, reaches
      `edge`. */
  function Crossing(p: real, d: real, edge: real): (t: real)
    requires d != 0.0
    ensures Along(p, d, t) == edge
  {
    (edge - p) / d
  }

  /** The crossing of one side of the rectangle: `towards` says whether the
      ball moves towards the side, `p` moving by `d` is the coordinate across
      the side, `edge` the side's position pushed out by the radius, and `q`
      moving by `e` the coordinate along the side, which must stay within
      `lo`..`hi` (the side widened by the radius). */
  datatype Crossed = Crossed(t: real, along: real)

  function AxisCrossing(towards: bool, p: real, d: real, edge: real,
                        q: real, e: real, lo: real, hi: real): (c: Option<Crossed>)
    requires towards ==> d != 0.0
    ensures c.Some? ==> towards && 0.0 <= c.value.t <= 1.0 && Along(p, d, c.value.t) == edge &&
                        c.value.along == Along(q, e, c.value.t) && lo <= c.value.along <= hi
  {
    if towards then
      var t := Crossing(p, d, edge);
      var along := Along(q, e, t);
      if 0.0 <= t <= 1.0 && lo <= along <= hi then Some(Crossed(t, along)) else None
    else None
  }

  /** The contact a crossing stands for; `across` is the coordinate across
      the side (x for Left and Right, y for Top and Bottom). */
  function CrossedHit(kind: CollisionType, c: Option<Crossed>, across: real): (h: Option<Hit>)
    ensures h.Some? <==> c.Some?
    ensures h.Some? ==> h.value.kind == kind && h.value.t == c.value.t
    ensures h.Some? && (kind == Left || kind == Right) ==> h.value.x == across && h.value.y == c.value.along
    ensures h.Some? && (kind == Top || kind == Bottom) ==> h.value.x == c.value.along && h.value.y == across
  {
    match c
    case None => None
    case Some(cr) =>
      if kind == Left || kind == Right then Some(Hit(kind, cr.t, across, cr.along))
      else Some(Hit(kind, cr.t, cr.along, across))
  }

  /** The candidate contact with one side of the rectangle pushed out by
      the radius, as the source computes it: only when the ball moves
      towards that side, only for a crossing within the path, and only where
      the crossing point lies within the side widened by the radius. The
      contact point's coordinate across the side is the pushed-out edge. */
  function EdgeCandidate(side: CollisionType, b: Ball, nb: Ball, rect: Rect): (h: Option<Hit>)
    requires side.IsEdge()
    ensures h.Some? ==>
              h.value.kind == side && 0.0 <= h.value.t <= 1.0 &&
              h.value.x == Along(b.x, nb.x - b.x, h.value.t) && h.value.y == Along(b.y, nb.y - b.y, h.value.t)
    ensures h.Some? && side == Left ==>
              nb.x - b.x > 0.0 && h.value.x == rect.x - BallRadius &&
              rect.y - BallRadius <= h.value.y <= rect.y + rect.height + BallRadius
    ensures h.Some? && side == Right ==>
              nb.x - b.x < 0.0 && h.value.x == rect.x + rect.width + BallRadius &&
              rect.y - BallRadius <= h.value.y <= rect.y + rect.height + BallRadius
    ensures h.Some? && side == Top ==>
              nb.y - b.y > 0.0 && h.value.y == rect.y - BallRadius &&
              rect.x - BallRadius <= h.value.x <= rect.x + rect.width + BallRadius
    ensures h.Some? && side == Bottom ==>
              nb.y - b.y < 0.0 && h.value.y == rect.y + rect.height + BallRadius &&
              rect.x - BallRadius <= h.value.x <= rect.x + rect.width + BallRadius
  {
    var dx, dy := nb.x - b.x, nb.y - b.y;
    var yLo, yHi := rect.y - BallRadius, rect.y + rect.height + BallRadius;
    var xLo, xHi := rect.x - BallRadius, rect.x + rect.width + BallRadius;
    if side == Left then
      CrossedHit(Left, AxisCrossing(dx > 0.0, b.x, dx, rect.x - BallRadius, b.y, dy, yLo, yHi),
                 rect.x - BallRadius)
    else if side == Right then
      CrossedHit(Right, AxisCrossing(dx < 0.0, b.x, dx, rect.x + rect.width + BallRadius, b.y, dy, yLo, yHi),
                 rect.x + rect.width + BallRadius)
    else if side == Top then
      CrossedHit(Top, AxisCrossing(dy > 0.0, b.y, dy, rect.y - BallRadius, b.x, dx, xLo, xHi),
                 rect.y - BallRadius)
    else
      CrossedHit(Bottom, AxisCrossing(dy < 0.0, b.y, dy, rect.y + rect.height + BallRadius, b.x, dx, xLo, xHi),
                 rect.y + rect.height + BallRadius)
  }

  /** The quadratic a t^2 + b t + c. */
  datatype Quadratic = Quadratic(a: real, b: real, c: real)

  function Eval(q: Quadratic, u: real): real {
    q.a * u * u + q.b * u + q.c
  }

  function Discriminant(q: Quadratic): real {
    q.b * q.b - 4.0 * q.a * q.c
  }

  /** The quadratic whose roots are the times at which the point moving
      from (x1, y1) along (dx, dy) is at distance r from (cx, cy). */
  function CircleLineQuadratic(x1: real, y1: real, dx: real, dy: real, cx: real, cy: real, r: real): Quadratic {
    Quadratic(Len2(dx, dy), 2.0 * (dx * (x1 - cx) + dy * (y1 - cy)), Len2(x1 - cx, y1 - cy) - r * r)
  }

  /** The root (-b + s) / 2a of the quadratic formula, for s one of the
      two signed square roots of the discriminant. */
  function Root(a: real, b: real, s: real): (u: real)
    requires a != 0.0
    ensures u * (2.0 * a) == -b + s
  {
    (-b + s) / (2.0 * a)
  }

  /** The smaller root of `q` if it is non-negative, else the larger one
      if that is, computed with the injected square root. */
  function FirstNonNegativeRoot(q: Quadratic, sqrt: real -> real): (t: Option<real>)
    requires q.a != 0.0
    ensures t.Some? ==> t.value >= 0.0 && Discriminant(q) >= 0.0
    ensures t.Some? ==>
              t.value * (2.0 * q.a) == -q.b - sqrt(Discriminant(q)) ||
              t.value * (2.0 * q.a) == -q.b + sqrt(Discriminant(q))
  {
    var disc := Discriminant(q);
    if disc < 0.0 then None
    else
      var t1 := Root(q.a, q.b, -sqrt(disc));
      var t2 := Root(q.a, q.b, sqrt(disc));
      if t1 >= 0.0 then Some(t1)
      else if t2 >= 0.0 then Some(t2)
      else None
  }

  /** The first non-negative time at which a point moving from (x1, y1)
      along (dx, dy) is at distance r from (cx, cy). */
  function CircleLineIntersection(x1: real, y1: real, dx: real, dy: real, cx: real, cy: real, r: real,
                                  sqrt: real -> real): (t: Option<real>)
    requires Len2(dx, dy) != 0.0
    ensures t.Some? ==> t.value >= 0.0
  {
    FirstNonNegativeRoot(CircleLineQuadratic(x1, y1, dx, dy, cx, cy, r), sqrt)
  }

  /** u is a root of a u^2 + b u + c when 2 a u == -b - s or -b + s and
      s is a square root of the discriminant. */
  lemma QuadraticRoot(a: real, b: real, c: real, s: real, u: real)
    requires a != 0.0 && s * s == b * b - 4.0 * a * c
    requires u * (2.0 * a) == -b - s || u * (2.0 * a) == -b + s
    ensures a * u * u + b * u + c == 0.0
  {
    var w := u * (2.0 * a) + b;
    assert w == -s || w == s;
    assert w * w == s * s;
    assert w * w == 4.0 * a * (a * u * u + b * u) + b * b;
    assert 4.0 * a * (a * u * u + b * u + c) == 0.0;
  }

  /** The squared length of e + u d, written in powers of u. */
  lemma DistanceAlong(ex: real, ey: real, dx: real, dy: real, u: real)
    ensures Len2(ex + dx * u, ey + dy * u) == Len2(dx, dy) * u * u + 2.0 * (dx * ex + dy * ey) * u + Len2(ex, ey)
  {
  }

  lemma DivisionFact(n: real, d: real, u: real)
    requires d != 0.0 && u == n / d
    ensures u * d == n
  {
  }

  /** With an exact square root, a reported root is a root. */
  lemma FirstNonNegativeRootIsRoot(q: Quadratic, sqrt: real -> real)
    requires q.a != 0.0
    requires Discriminant(q) >= 0.0 ==> sqrt(Discriminant(q)) * sqrt(Discriminant(q)) == Discriminant(q)
    ensures var t := FirstNonNegativeRoot(q, sqrt);
            t.Some? ==> Eval(q, t.value) == 0.0
  {
    var t := FirstNonNegativeRoot(q, sqrt);
    if t.Some? {
      QuadraticRoot(q.a, q.b, q.c, sqrt(Discriminant(q)), t.value);
    }
  }

  /** The circle-line quadratic at u is the squared distance at u minus r^2. */
  lemma CircleLineQuadraticMeaning(x1: real, y1: real, dx: real, dy: real, cx: real, cy: real, r: real, u: real)
    ensures Eval(CircleLineQuadratic(x1, y1, dx, dy, cx, cy, r), u) ==
            SqDist(Along(x1, dx, u), Along(y1, dy, u), cx, cy) - r * r
  {
    DistanceAlong(x1 - cx, y1 - cy, dx, dy, u);
    assert Along(x1, dx, u) - cx == (x1 - cx) + dx * u;
    assert Along(y1, dy, u) - cy == (y1 - cy) + dy * u;
  }

  /** With an exact square root, a reported time puts the moving point at
      distance exactly r from the fixed point. */
  lemma {:induction false} CircleLineRootOnCircle(x1: real, y1: real, dx: real, dy: real, cx: real, cy: real,
                                                  r: real, sqrt: real -> real)
    requires Len2(dx, dy) != 0.0
    requires var d := Discriminant(CircleLineQuadratic(x1, y1, dx, dy, cx, cy, r));
             d >= 0.0 ==> sqrt(d) * sqrt(d) == d
    ensures var t := CircleLineIntersection(x1, y1, dx, dy, cx, cy, r, sqrt);
            t.Some? ==> SqDist(Along(x1, dx, t.value), Along(y1, dy, t.value), cx, cy) == r * r
  {
    var t := CircleLineIntersection(x1, y1, dx, dy, cx, cy, r, sqrt);
    if t.Some? {
      FirstNonNegativeRootIsRoot(CircleLineQuadratic(x1, y1, dx, dy, cx, cy, r), sqrt);
      CircleLineQuadraticMeaning(x1, y1, dx, dy, cx, cy, r, t.value);
    }
  }

  /** The contact with one corner, as the corner loop computes it. */
  function CornerCandidate(c: Corner, b: Ball, nb: Ball, nums: Numerics): (h: Option<Hit>)
    requires Moving(b, nb)
    ensures h.Some? ==>
              h.value.kind == c.kind && 0.0 <= h.value.t <= 1.0 &&
              h.value.x == Along(b.x, nb.x - b.x, h.value.t) && h.value.y == Along(b.y, nb.y - b.y, h.value.t)
    ensures h.Some? ==>
              (MovingHasLength(b, nb);
               CircleLineIntersection(b.x, b.y, nb.x - b.x, nb.y - b.y, c.x, c.y, BallRadius, nums.sqrt)
               == Some(h.value.t))
  {
    MovingHasLength(b, nb);
    var t := CircleLineIntersection(b.x, b.y, nb.x - b.x, nb.y - b.y, c.x, c.y, BallRadius, nums.sqrt);
    if t.Some? && 0.0 <= t.value <= 1.0 then
      Some(Hit(c.kind, t.value, Along(b.x, nb.x - b.x, t.value), Along(b.y, nb.y - b.y, t.value)))
    else None
  }

  /** The four side candidates in the order the source checks them: left,
      right, top, bottom. */
  function EdgeCandidates(b: Ball, nb: Ball, rect: Rect): (cs: seq<Option<Hit>>)
    ensures |cs| == 4
    ensures forall i :: 0 <= i < 4 && cs[i].Some? ==> OnPath(cs[i].value, b, nb)
  {
    var sides := [Left, Right, Top, Bottom];
    seq(4, k requires 0 <= k < 4 => EdgeCandidate(sides[k], b, nb, rect))
  }

  /** The four corner candidates, in corner order. */
  function CornerCandidates(b: Ball, nb: Ball, rect: Rect, nums: Numerics): (cs: seq<Option<Hit>>)
    requires Moving(b, nb)
    ensures |cs| == 4
    ensures forall i :: 0 <= i < 4 && cs[i].Some? ==> OnPath(cs[i].value, b, nb)
  {
    var corners := Corners(rect);
    seq(4, k requires 0 <= k < 4 => CornerCandidate(corners[k], b, nb, nums))
  }

  /** All eight candidates in the order the source checks them. Each lies
      on the path, and a side is a candidate only when the ball moves
      towards it. */
  function Candidates(b: Ball, nb: Ball, rect: Rect, nums: Numerics): (cs: seq<Option<Hit>>)
    requires Moving(b, nb)
    ensures |cs| == 8
    ensures forall i :: 0 <= i < 8 && cs[i].Some? ==> OnPath(cs[i].value, b, nb)
  {
    EdgeCandidates(b, nb, rect) + CornerCandidates(b, nb, rect, nums)
  }

  /** A contact on the path from `b` to `nb` whose kind is consistent with
      the direction of travel. */
  predicate OnPath(h: Hit, b: Ball, nb: Ball) {
    0.0 <= h.t <= 1.0 && h.x == Along(b.x, nb.x - b.x, h.t) && h.y == Along(b.y, nb.y - b.y, h.t) &&
    (h.kind == Left ==> nb.x > b.x) && (h.kind == Right ==> nb.x < b.x) &&
    (h.kind == Top ==> nb.y > b.y) && (h.kind == Bottom ==> nb.y < b.y) &&
    h.kind != NoCollision
  }

  /** The running selection: the earliest time so far and the contact it
      belongs to. */
  datatype Selection = Selection(minT: real, kind: CollisionType, x: real, y: real)

  /** A candidate replaces the running selection only if it is strictly
      earlier. */
  function Select(s: Selection, c: Option<Hit>): Selection {
    if c.Some? && c.value.t < s.minT then Selection(c.value.t, c.value.kind, c.value.x, c.value.y) else s
  }

  function SelectAll(s: Selection, cs: seq<Option<Hit>>): Selection {
    if cs == [] then s else Select(SelectAll(s, cs[..|cs| - 1]), cs[|cs| - 1])
  }

  lemma SelectAllSnoc(s: Selection, cs: seq<Option<Hit>>, k: nat)
    requires k < |cs|
    ensures SelectAll(s, cs[..k + 1]) == Select(SelectAll(s, cs[..k]), cs[k])
  {
    assert cs[..k + 1][..k] == cs[..k];
  }

  lemma {:induction false} SelectAllAppend(s: Selection, xs: seq<Option<Hit>>, ys: seq<Option<Hit>>)
    ensures SelectAll(s, xs + ys) == SelectAll(SelectAll(s, xs), ys)
    decreases |ys|
  {
    if ys == [] {
      assert xs + ys == xs;
    } else {
      var n := |ys|;
      assert (xs + ys)[..|xs + ys| - 1] == xs + ys[..n - 1];
      SelectAllAppend(s, xs, ys[..n - 1]);
    }
  }

  function HitOf(s: Selection): Hit { Hit(s.kind, s.minT, s.x, s.y) }

  /** The selection made over `cs` is either the starting one, when no
      candidate is earlier than it, or candidate `i`, which is strictly
      earlier than every candidate before it and no later than every
      candidate after it. */
  lemma {:induction false} SelectAllWitness(s: Selection, cs: seq<Option<Hit>>) returns (i: int)
    ensures -1 <= i < |cs|
    ensures i == -1 ==> SelectAll(s, cs) == s &&
                        forall j :: 0 <= j < |cs| && cs[j].Some? ==> cs[j].value.t >= s.minT
    ensures i >= 0 ==> cs[i].Some? && HitOf(SelectAll(s, cs)) == cs[i].value && cs[i].value.t < s.minT &&
                       (forall j :: 0 <= j < i && cs[j].Some? ==> cs[j].value.t > cs[i].value.t) &&
                       (forall j :: i < j < |cs| && cs[j].Some? ==> cs[j].value.t >= cs[i].value.t)
  {
    if cs == [] {
      i := -1;
    } else {
      var n := |cs|;
      var prefix := cs[..n - 1];
      assert forall j :: 0 <= j < n - 1 ==> cs[j] == prefix[j];
      var k := SelectAllWitness(s, prefix);
      var before := SelectAll(s, prefix);
      var last := cs[n - 1];
      if last.Some? && last.value.t < before.minT {
        i := n - 1;
        assert k >= 0 ==> before.minT == cs[k].value.t;
      } else {
        i := k;
      }
    }
  }

  /** The swept test: it returns the earliest contact along the path from
      `b` to `nb`, or nothing. A path shorter than 0.001 on both axes falls
      back to the overlap classifier at `nb`, reported at t = 1. */
  function ContinuousCollision(b: Ball, nb: Ball, rect: Rect, nums: Numerics): Option<Hit> {
    if !Moving(b, nb) then
      var kind := BallRectCollision(nb, rect);
      if kind != NoCollision then Some(Hit(kind, 1.0, nb.x, nb.y)) else None
    else
      var s := SelectAll(Selection(1.0, NoCollision, nb.x, nb.y), Candidates(b, nb, rect, nums));
      if s.minT < 1.0 then Some(HitOf(s)) else None
  }

  /** For a moving ball a reported contact lies on the path, strictly before
      its end, and is the first of the eight candidates with the smallest
      time; a side is reported only when the ball moves towards it. When
      nothing is reported, no candidate lies strictly before the end. */
  lemma {:induction false} ContinuousCollisionOnPath(b: Ball, nb: Ball, rect: Rect, nums: Numerics)
    requires Moving(b, nb)
    ensures var r := ContinuousCollision(b, nb, rect, nums);
            var cs := Candidates(b, nb, rect, nums);
            (r.Some? ==>
               r.value.t < 1.0 && OnPath(r.value, b, nb) &&
               exists i :: 0 <= i < 8 && cs[i] == r &&
                 (forall j :: 0 <= j < i && cs[j].Some? ==> cs[j].value.t > r.value.t) &&
                 (forall j :: i < j < 8 && cs[j].Some? ==> cs[j].value.t >= r.value.t)) &&
            (r.None? ==> forall j :: 0 <= j < 8 && cs[j].Some? ==> cs[j].value.t >= 1.0)
  {
    var cs := Candidates(b, nb, rect, nums);
    var s0 := Selection(1.0, NoCollision, nb.x, nb.y);
    var i := SelectAllWitness(s0, cs);
    if i >= 0 {
      assert ContinuousCollision(b, nb, rect, nums) == cs[i];
    }
  }

  /** The four side checks of the swept test, one after the other, each
      replacing the running selection only with a strictly earlier time. */
  method EdgeChecks(b: Ball, nb: Ball, rect: Rect) returns (minT: real, kind: CollisionType, cx: real, cy: real)
    ensures Selection(minT, kind, cx, cy) ==
            SelectAll(Selection(1.0, NoCollision, nb.x, nb.y), EdgeCandidates(b, nb, rect))
  {
    minT, kind, cx, cy := 1.0, NoCollision, nb.x, nb.y;
    ghost var cs := EdgeCandidates(b, nb, rect);
    ghost var s0 := Selection(minT, kind, cx, cy);

    var left := EdgeCandidate(Left, b, nb, rect);
    if left.Some? && left.value.t < minT {
      minT, kind, cx, cy := left.value.t, Left, left.value.x, left.value.y;
    }
    SelectAllSnoc(s0, cs, 0);
    var right := EdgeCandidate(Right, b, nb, rect);
    if right.Some? && right.value.t < minT {
      minT, kind, cx, cy := right.value.t, Right, right.value.x, right.value.y;
    }
    SelectAllSnoc(s0, cs, 1);
    var top := EdgeCandidate(Top, b, nb, rect);
    if top.Some? && top.value.t < minT {
      minT, kind, cx, cy := top.value.t, Top, top.value.x, top.value.y;
    }
    SelectAllSnoc(s0, cs, 2);
    var bottom := EdgeCandidate(Bottom, b, nb, rect);
    if bottom.Some? && bottom.value.t < minT {
      minT, kind, cx, cy := bottom.value.t, Bottom, bottom.value.x, bottom.value.y;
    }
    SelectAllSnoc(s0, cs, 3);
    assert cs[..4] == cs;
  }

  /** The swept test as the source runs it: the four side checks, then a
      loop over the corners, keeping the earliest time. */
  method DetectContinuousCollision(b: Ball, nb: Ball, rect: Rect, nums: Numerics) returns (r: Option<Hit>)
    ensures r == ContinuousCollision(b, nb, rect, nums)
  {
    var dx := nb.x - b.x;
    var dy := nb.y - b.y;
    if Abs(dx) < 0.001 && Abs(dy) < 0.001 {
      var kind := BallRectCollision(nb, rect);
      return if kind != NoCollision then Some(Hit(kind, 1.0, nb.x, nb.y)) else None;
    }
    var minT, kind, cx, cy := EdgeChecks(b, nb, rect);
    ghost var afterEdges := Selection(minT, kind, cx, cy);
    ghost var cc := CornerCandidates(b, nb, rect, nums);
    var corners := Corners(rect);
    for k := 0 to 4
      invariant Selection(minT, kind, cx, cy) == SelectAll(afterEdges, cc[..k])
    {
      var h := CornerCandidate(corners[k], b, nb, nums);
      if h.Some? && h.value.t < minT {
        minT, kind, cx, cy := h.value.t, h.value.kind, h.value.x, h.value.y;
      }
      SelectAllSnoc(afterEdges, cc, k);
    }
    assert cc[..4] == cc;
    SelectAllAppend(Selection(1.0, NoCollision, nb.x, nb.y), EdgeCandidates(b, nb, rect), cc);
    r := if minT < 1.0 then Some(Hit(kind, minT, cx, cy)) else None;
  }

  /** Of the sides of a 60 by 30 brick at (50, 50), only the bottom one
      is met by a ball moving straight up from (80, 95) to (80, 75): a
      quarter of the way along, at (80, 90). */
  lemma SweptEdgesFromBelow()
    ensures EdgeCandidates(Ball(80.0, 95.0, 0.0, -1000.0, true), Ball(80.0, 75.0, 0.0, -1000.0, true),
                           Rect(50.0, 50.0, 60.0, 30.0))
            == [None, None, None, Some(Hit(Bottom, 0.25, 80.0, 90.0))]
  {
    assert Crossing(95.0, -20.0, 90.0) == 0.25;
  }

  /** For the same move no corner is within one radius of the path's line,
      whatever the square root. */
  lemma SweptCornersFromBelow(nums: Numerics)
    ensures CornerCandidates(Ball(80.0, 95.0, 0.0, -1000.0, true), Ball(80.0, 75.0, 0.0, -1000.0, true),
                             Rect(50.0, 50.0, 60.0, 30.0), nums)
            == [None, None, None, None]
  {
    assert Discriminant(CircleLineQuadratic(80.0, 95.0, 0.0, -20.0, 50.0, 50.0, BallRadius)) < 0.0;
    assert Discriminant(CircleLineQuadratic(80.0, 95.0, 0.0, -20.0, 110.0, 50.0, BallRadius)) < 0.0;
    assert Discriminant(CircleLineQuadratic(80.0, 95.0, 0.0, -20.0, 50.0, 80.0, BallRadius)) < 0.0;
    assert Discriminant(CircleLineQuadratic(80.0, 95.0, 0.0, -20.0, 110.0, 80.0, BallRadius)) < 0.0;
  }

  /** Hence the swept test reports the bottom side at t = 0.25, at (80, 90). */
  lemma SweptHitFromBelow(nums: Numerics)
    ensures ContinuousCollision(Ball(80.0, 95.0, 0.0, -1000.0, true), Ball(80.0, 75.0, 0.0, -1000.0, true),
                                Rect(50.0, 50.0, 60.0, 30.0), nums)
            == Some(Hit(Bottom, 0.25, 80.0, 90.0))
  {
    var b, nb := Ball(80.0, 95.0, 0.0, -1000.0, true), Ball(80.0, 75.0, 0.0, -1000.0, true);
    var rect := Rect(50.0, 50.0, 60.0, 30.0);
    var ec, cc := EdgeCandidates(b, nb, rect), CornerCandidates(b, nb, rect, nums);
    var s0 := Selection(1.0, NoCollision, nb.x, nb.y);
    SweptEdgesFromBelow();
    SweptCornersFromBelow(nums);
    SelectAllSnoc(s0, ec, 0);
    SelectAllSnoc(s0, ec, 1);
    SelectAllSnoc(s0, ec, 2);
    SelectAllSnoc(s0, ec, 3);
    assert ec[..4] == ec;
    var s1 := SelectAll(s0, ec);
    SelectAllSnoc(s1, cc, 0);
    SelectAllSnoc(s1, cc, 1);
    SelectAllSnoc(s1, cc, 2);
    SelectAllSnoc(s1, cc, 3);
    assert cc[..4] == cc;
    SelectAllAppend(s0, ec, cc);
  }

  // ---------------------------------------------------------------------
  // Power-up pickup
  // ---------------------------------------------------------------------

  /** Ball radius plus power-up radius plus one pixel of tolerance. */
  function PickupRadius(p: PowerUp): real {
    BallRadius + p.size / 2.0 + 1.0
  }

  /** `Math.sqrt(Math.pow(x - p.x, 2) + Math.pow(y - p.y, 2)) <= collisionRadius` */
  predicate Near(x: real, y: real, p: PowerUp) {
    0.0 <= PickupRadius(p) && Dist2(x, y, p) <= PickupRadius(p) * PickupRadius(p)
  }

  /** The point a fraction `s` along the path from `b` to `nb` is near the
      power-up. */
  predicate NearAt(b: Ball, nb: Ball, p: PowerUp, s: real) {
    Near(Along(b.x, nb.x - b.x, s), Along(b.y, nb.y - b.y, s), p)
  }

  function Clamp01(v: real): (r: real)
    ensures 0.0 <= r <= 1.0
    ensures 0.0 <= v <= 1.0 ==> r == v
  {
    if v < 0.0 then 0.0 else if v > 1.0 then 1.0 else v
  }

  /** Path fraction of the point closest to the power-up's centre, for the
      path from (x, y) along (dx, dy). */
  function ClosestParam(x: real, y: real, dx: real, dy: real, p: PowerUp): (t: real)
    requires Len2(dx, dy) > 0.0
    ensures 0.0 <= t <= 1.0
    ensures ClampedVertex(Len2(dx, dy), dx * (x - p.x) + dy * (y - p.y), t)
  {
    var num := (p.x - x) * dx + (p.y - y) * dy;
    assert num == -(dx * (x - p.x) + dy * (y - p.y));
    ClampedQuotient(num, Len2(dx, dy));
    Clamp01(num / Len2(dx, dy))
  }

  /** `t` is the vertex -q / a of the parabola 2 v q + v^2 a clamped to
      [0, 1], stated without division. */
  predicate ClampedVertex(a: real, q: real, t: real) {
    (-q <= 0.0 ==> t == 0.0) && (-q >= a ==> t == 1.0) && (0.0 < -q < a ==> t * a == -q)
  }

  lemma ClampedQuotient(num: real, den: real)
    requires den > 0.0
    ensures ClampedVertex(den, -num, Clamp01(num / den))
  {
    if num <= 0.0 {
      QuotientNonPositive(num, den);
    } else if num >= den {
      QuotientAtLeastOne(num, den);
    } else {
      QuotientInUnit(num, den);
    }
  }

  lemma QuotientNonPositive(num: real, den: real)
    requires den > 0.0 && num <= 0.0
    ensures num / den <= 0.0
  {
    var v := num / den;
    DivisionFact(num, den, v);
    if v > 0.0 {
      ScaleStrict(0.0, v, den);
    }
  }

  lemma QuotientAtLeastOne(num: real, den: real)
    requires den > 0.0 && num >= den
    ensures num / den >= 1.0
  {
    var v := num / den;
    DivisionFact(num, den, v);
    if v < 1.0 {
      ScaleStrict(v, 1.0, den);
    }
  }

  lemma QuotientInUnit(num: real, den: real)
    requires 0.0 < num < den
    ensures 0.0 < num / den < 1.0 && num / den * den == num
  {
    var v := num / den;
    DivisionFact(num, den, v);
    if v <= 0.0 {
      ScaleAtMost(v, 0.0, den);
    }
    if v >= 1.0 {
      ScaleAtMost(1.0, v, den);
    }
  }

  predicate ShortPath(b: Ball, nb: Ball) {
    Abs(nb.x - b.x) < 0.1 && Abs(nb.y - b.y) < 0.1
  }

  lemma LongPathHasLength(b: Ball, nb: Ball)
    requires !ShortPath(b, nb)
    ensures Len2(nb.x - b.x, nb.y - b.y) > 0.0
  {
    LengthAtLeast(nb.x - b.x, nb.y - b.y, 0.1);
  }

  /** The pickup test: either end point near the power-up, or, for a path
      of at least 0.1 on some axis, the closest point of the path. */
  function PowerUpCollision(b: Ball, nb: Ball, p: PowerUp): (hit: bool)
    ensures Near(b.x, b.y, p) || Near(nb.x, nb.y, p) ==> hit
    ensures ShortPath(b, nb) && !Near(b.x, b.y, p) && !Near(nb.x, nb.y, p) ==> !hit
  {
    if Near(b.x, b.y, p) then true
    else if Near(nb.x, nb.y, p) then true
    else if ShortPath(b, nb) then false
    else
      LongPathHasLength(b, nb);
      NearAt(b, nb, p, ClosestParam(b.x, b.y, nb.x - b.x, nb.y - b.y, p))
  }

  function Dist2(x: real, y: real, p: PowerUp): real {
    SqDist(x, y, p.x, p.y)
  }

  /** On [0, 1] the parabola 2 v q + v^2 a (a > 0) is smallest at its
      vertex -q / a clamped to [0, 1]. */
  lemma ClampedMinimum(a: real, q: real, t: real, s: real)
    requires a > 0.0 && 0.0 <= s <= 1.0 && ClampedVertex(a, q, t)
    ensures 2.0 * t * q + t * t * a <= 2.0 * s * q + s * s * a
  {
    assert (2.0 * s * q + s * s * a) - (2.0 * t * q + t * t * a) == (s - t) * (2.0 * q + a * (s + t));
    if -q <= 0.0 {
      assert t == 0.0;
      assert 2.0 * q + a * s >= 0.0;
      assert s * (2.0 * q + a * s) >= 0.0;
    } else if -q >= a {
      assert t == 1.0;
      assert 2.0 * q + a * (s + 1.0) <= a * (s - 1.0) <= 0.0;
      assert (s - 1.0) * (2.0 * q + a * (s + 1.0)) >= 0.0;
    } else {
      assert 2.0 * q == -2.0 * t * a;
      assert (s - t) * (2.0 * q + a * (s + t)) == a * ((s - t) * (s - t));
      assert (s - t) * (s - t) >= 0.0;
    }
  }

  lemma ClampedMinimumOf(a: real, q: real, c: real, t: real, s: real)
    requires a > 0.0 && 0.0 <= s <= 1.0 && ClampedVertex(a, q, t)
    ensures Eval(Quadratic(a, 2.0 * q, c), t) <= Eval(Quadratic(a, 2.0 * q, c), s)
  {
    ClampedMinimum(a, q, t, s);
  }

  /** On the path from (x, y) along (dx, dy), the point at the clamped
      vertex is at least as close to (px, py) as any point of the path. */
  lemma ClosestOnSegment(x: real, y: real, dx: real, dy: real, px: real, py: real, s: real, t: real)
    requires Len2(dx, dy) > 0.0 && 0.0 <= s <= 1.0
    requires ClampedVertex(Len2(dx, dy), dx * (x - px) + dy * (y - py), t)
    ensures SqDist(Along(x, dx, t), Along(y, dy, t), px, py) <= SqDist(Along(x, dx, s), Along(y, dy, s), px, py)
  {
    CircleLineQuadraticMeaning(x, y, dx, dy, px, py, 0.0, t);
    CircleLineQuadraticMeaning(x, y, dx, dy, px, py, 0.0, s);
    ClampedMinimumOf(Len2(dx, dy), dx * (x - px) + dy * (y - py), Len2(x - px, y - py) - 0.0 * 0.0, t, s);
  }

  /** The clamped parameter gives the point of the path closest to the
      power-up's centre. */
  lemma {:induction false} ClosestParamIsClosest(x: real, y: real, dx: real, dy: real, p: PowerUp, s: real)
    requires Len2(dx, dy) > 0.0
    requires 0.0 <= s <= 1.0
    ensures var t := ClosestParam(x, y, dx, dy, p);
            Dist2(Along(x, dx, t), Along(y, dy, t), p) <= Dist2(Along(x, dx, s), Along(y, dy, s), p)
  {
    ClosestOnSegment(x, y, dx, dy, p.x, p.y, s, ClosestParam(x, y, dx, dy, p));
  }

  /** For a path of at least 0.1 on some axis the test is exact: it fires
      iff some point of the path lies within the pickup radius. */
  lemma {:induction false} PowerUpCollisionExact(b: Ball, nb: Ball, p: PowerUp)
    requires !ShortPath(b, nb)
    ensures PowerUpCollision(b, nb, p) <==> exists s: real :: 0.0 <= s <= 1.0 && NearAt(b, nb, p, s)
  {
    LongPathHasLength(b, nb);
    var t := ClosestParam(b.x, b.y, nb.x - b.x, nb.y - b.y, p);
    assert Along(b.x, nb.x - b.x, 0.0) == b.x && Along(b.y, nb.y - b.y, 0.0) == b.y;
    assert Along(b.x, nb.x - b.x, 1.0) == nb.x && Along(b.y, nb.y - b.y, 1.0) == nb.y;
    if PowerUpCollision(b, nb, p) {
      if Near(b.x, b.y, p) {
        assert NearAt(b, nb, p, 0.0);
      } else if Near(nb.x, nb.y, p) {
        assert NearAt(b, nb, p, 1.0);
      } else {
        assert NearAt(b, nb, p, t);
      }
    }
    if exists s: real :: 0.0 <= s <= 1.0 && NearAt(b, nb, p, s) {
      var s: real :| 0.0 <= s <= 1.0 && NearAt(b, nb, p, s);
      ClosestParamIsClosest(b.x, b.y, nb.x - b.x, nb.y - b.y, p, s);
      assert NearAt(b, nb, p, t);
    }
  }
}
