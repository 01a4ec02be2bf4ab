/** The game component: its state, one frame of the game loop, the end of
    a round, and the mouse handlers.

    Timers are explicit: `Click` schedules the balls, `LaunchNext` is the
    80 ms timeout that launches one of them, `Tick` is one animation frame,
    `EndRound` is the 500 ms timeout armed when every ball has landed, and
    `ReturnToReady` the 100 ms timeout that follows a round. Frame times,
    `Math.atan2`, `Math.sqrt` and `Math.random()` are arguments. */
module GameComponent {
  import opened Config
  import opened Entities
  import opened Collision
  import opened GameLogic

  /** Balls are launched from, and land on, this height (790). */
  const LaunchY: real := CanvasHeight - BallRadius

  /** How far a ball is pushed back inside after a wall bounce. */
  const WallEpsilon: real := 1.0

  // ---------------------------------------------------------------------
  // One ball in one frame
  // ---------------------------------------------------------------------

  /** The ball advanced along its velocity for `dt` seconds. */
  function MoveBall(b: Ball, dt: real): Ball {
    b.(x := b.x + b.vx * dt, y := b.y + b.vy * dt)
  }

  /** The wall handling of a frame: a ball reaching the floor stops there;
      any other wall reflects it and pushes it back inside. */
  function AfterWalls(nb: Ball, nums: Numerics, coin: real): Ball {
    var wall := WallCollision(nb);
    if wall == NoCollision then nb
    else if wall == Bottom then nb.(active := false, y := LaunchY)
    else
      var bounced := Bounce(nb, wall, nums.atan2Deg(nb.vy, nb.vx), coin);
      if wall == Left then bounced.(x := BallRadius + WallEpsilon)
      else if wall == Right then bounced.(x := CanvasWidth - BallRadius - WallEpsilon)
      else bounced.(y := BallRadius + WallEpsilon)
  }

  /** A ball that reaches the floor stops on the launch line and no longer
      moves; a ball that runs into a side wall or the ceiling is put back
      clear of it, moving away from it at the same speed. */
  lemma AfterWallsMeaning(nb: Ball, nums: Numerics, coin: real)
    ensures var r := AfterWalls(nb, nums, coin);
            var wall := WallCollision(nb);
            (wall == Bottom ==> !r.active && r.y == LaunchY && r.x == nb.x) &&
            (wall == Left && nb.vx < 0.0 ==> r.vx > 0.0 && r.vy == nb.vy && WallCollision(r) != Left) &&
            (wall == Right && nb.vx > 0.0 ==> r.vx < 0.0 && r.vy == nb.vy && WallCollision(r) != Right && WallCollision(r) != Left) &&
            (wall == Top && nb.vy < 0.0 ==> r.vy > 0.0 && r.vx == nb.vx && WallCollision(r) == NoCollision) &&
            (wall != Bottom ==> r.active == nb.active)
  {
    var wall := WallCollision(nb);
    if wall.IsEdge() && wall != Bottom {
      EdgeBounceInvolution(nb, wall, nums.atan2Deg(nb.vy, nb.vx), coin, 0.0, 0.0);
    }
  }

  /** The first live brick, from index k on, that the swept test reports
      for the path from `b` to `nb`. */
  datatype BrickHit = BrickHit(index: nat, hit: Hit)

  function FirstHitFrom(b: Ball, nb: Ball, bricks: seq<Brick>, nums: Numerics, k: nat): (r: Option<BrickHit>)
    ensures r.Some? ==>
              k <= r.value.index < |bricks| && !bricks[r.value.index].destroyed &&
              ContinuousCollision(b, nb, BrickRect(bricks[r.value.index]), nums) == Some(r.value.hit) &&
              forall j :: k <= j < r.value.index ==>
                bricks[j].destroyed || ContinuousCollision(b, nb, BrickRect(bricks[j]), nums).None?
    ensures r.None? ==>
              forall j :: k <= j < |bricks| ==>
                bricks[j].destroyed || ContinuousCollision(b, nb, BrickRect(bricks[j]), nums).None?
    decreases |bricks| - k
  {
    if k >= |bricks| then None
    else if !bricks[k].destroyed && ContinuousCollision(b, nb, BrickRect(bricks[k]), nums).Some? then
      Some(BrickHit(k, ContinuousCollision(b, nb, BrickRect(bricks[k]), nums).value))
    else FirstHitFrom(b, nb, bricks, nums, k + 1)
  }

  /** A hit takes one health point; at zero the brick is destroyed, and
      otherwise it is recoloured for its new health. */
  function Damage(br: Brick): (r: Brick)
    ensures r.x == br.x && r.y == br.y && r.width == br.width && r.height == br.height
    ensures r.health == br.health - 1 && r.maxHealth == br.maxHealth
    ensures r.destroyed <==> br.destroyed || br.health <= 1
    ensures !r.destroyed ==> r.color == BrickColor(r.health)
  {
    var hit := br.(health := br.health - 1);
    if hit.health <= 0 then hit.(destroyed := true) else hit.(color := BrickColor(hit.health))
  }

  /** A ball and the bricks after the brick pass of one frame. */
  datatype BrickOutcome = BrickOutcome(ball: Ball, bricks: seq<Brick>)

  /** The ball bounced off the hit brick and put at the contact point. */
  function BounceAt(nb: Ball, h: Hit, nums: Numerics, coin: real): Ball {
    Bounce(nb, h.kind, nums.atan2Deg(nb.vy, nb.vx), coin).(x := h.x, y := h.y)
  }

  /** The brick pass: only the first live brick the ball's path meets is
      hit; the ball bounces off it at the contact point. */
  function BrickPass(b: Ball, nb: Ball, bricks: seq<Brick>, nums: Numerics, coin: real): BrickOutcome {
    match FirstHitFrom(b, nb, bricks, nums, 0)
    case None => BrickOutcome(nb, bricks)
    case Some(BrickHit(i, h)) => BrickOutcome(BounceAt(nb, h, nums, coin), bricks[i := Damage(bricks[i])])
  }

  /** A ball damages at most one brick per frame, by exactly one health
      point, and only a live brick its path meets; every other brick is
      left as it was. */
  lemma BrickPassDamagesOne(b: Ball, nb: Ball, bricks: seq<Brick>, nums: Numerics, coin: real)
    ensures var out := BrickPass(b, nb, bricks, nums, coin);
            |out.bricks| == |bricks| &&
            (forall j :: 0 <= j < |bricks| && out.bricks[j] != bricks[j] ==>
               out.bricks[j] == Damage(bricks[j]) && !bricks[j].destroyed &&
               ContinuousCollision(b, nb, BrickRect(bricks[j]), nums).Some? &&
               forall k :: 0 <= k < |bricks| && k != j ==> out.bricks[k] == bricks[k])
    ensures var out := BrickPass(b, nb, bricks, nums, coin);
            (exists j :: 0 <= j < |bricks| && !bricks[j].destroyed &&
               ContinuousCollision(b, nb, BrickRect(bricks[j]), nums).Some?) ==>
            exists i :: 0 <= i < |bricks| && !bricks[i].destroyed &&
              ContinuousCollision(b, nb, BrickRect(bricks[i]), nums).Some? &&
              out.bricks[i] == Damage(bricks[i]) &&
              forall j :: 0 <= j < i ==>
                bricks[j].destroyed || ContinuousCollision(b, nb, BrickRect(bricks[j]), nums).None?
    ensures (forall j :: 0 <= j < |bricks| ==>
               bricks[j].destroyed || ContinuousCollision(b, nb, BrickRect(bricks[j]), nums).None?) ==>
            BrickPass(b, nb, bricks, nums, coin) == BrickOutcome(nb, bricks)
  {
    match FirstHitFrom(b, nb, bricks, nums, 0)
    case None =>
    case Some(BrickHit(i, h)) =>
      assert BrickPass(b, nb, bricks, nums, coin).bricks[i] == Damage(bricks[i]);
  }

  /** The power-up pass picks up a power-up that is not yet collected and
      near the ball's path. */
  predicate Picks(b: Ball, nb: Ball, p: PowerUp) {
    !p.collected && PowerUpCollision(b, nb, p)
  }

  function CollectPowerUps(b: Ball, nb: Ball, powerUps: seq<PowerUp>): (r: seq<PowerUp>)
    ensures |r| == |powerUps|
    ensures forall k :: 0 <= k < |r| ==>
              r[k].x == powerUps[k].x && r[k].y == powerUps[k].y && r[k].size == powerUps[k].size &&
              (r[k].collected <==> powerUps[k].collected || PowerUpCollision(b, nb, powerUps[k]))
  {
    seq(|powerUps|, k requires 0 <= k < |powerUps| =>
      if Picks(b, nb, powerUps[k]) then powerUps[k].(collected := true) else powerUps[k])
  }

  /** How many power-ups the pass picks up: each adds one ball for the
      next round. */
  function CountPicks(b: Ball, nb: Ball, powerUps: seq<PowerUp>): (n: nat)
    ensures n <= |powerUps|
    ensures n == 0 <==> forall k :: 0 <= k < |powerUps| ==> !Picks(b, nb, powerUps[k])
  {
    if |powerUps| == 0 then 0
    else
      var init := powerUps[..|powerUps| - 1];
      assert forall k :: 0 <= k < |init| ==> init[k] == powerUps[k];
      CountPicks(b, nb, init) + if Picks(b, nb, powerUps[|powerUps| - 1]) then 1 else 0
  }

  /** Bricks and power-ups together with the balls gained this frame. */
  datatype World = World(bricks: seq<Brick>, powerUps: seq<PowerUp>, gained: nat)

  datatype BallStep = BallStep(ball: Ball, world: World)

  /** One ball in one frame: a landed ball is left alone; a moving one is
      advanced, handled against the walls, then against the bricks, then
      against the power-ups. */
  function StepBall(w: World, b: Ball, dt: real, nums: Numerics, coin: real): BallStep {
    if !b.active then BallStep(b, w)
    else
      var nb := AfterWalls(MoveBall(b, dt), nums, coin);
      var out := BrickPass(b, nb, w.bricks, nums, coin);
      BallStep(out.ball,
               World(out.bricks, CollectPowerUps(b, out.ball, w.powerUps),
                     w.gained + CountPicks(b, out.ball, w.powerUps)))
  }

  /** The brick pass of `gameLoop` for one ball: a map over the bricks
      that stops looking after the first hit. */
  method BrickLoop(ball: Ball, newBall: Ball, bricks: seq<Brick>, nums: Numerics, coin: real) returns (out: BrickOutcome)
    ensures out == BrickPass(ball, newBall, bricks, nums, coin)
  {
    ghost var first := FirstHitFrom(ball, newBall, bricks, nums, 0);
    var collisionDetected := false;
    var nb := newBall;
    var updated: seq<Brick> := [];
    for k := 0 to |bricks|
      invariant |updated| == k
      invariant !collisionDetected ==>
                  nb == newBall && updated == bricks[..k] && first == FirstHitFrom(ball, newBall, bricks, nums, k)
      invariant collisionDetected ==>
                  first.Some? && first.value.index < k && nb == BounceAt(newBall, first.value.hit, nums, coin) &&
                  updated == bricks[..k][first.value.index := Damage(bricks[first.value.index])]
    {
      var brick := bricks[k];
      if brick.destroyed || collisionDetected {
        updated := updated + [brick];
      } else {
        var collision := DetectContinuousCollision(ball, nb, BrickRect(brick), nums);
        if collision.Some? {
          nb := BounceAt(nb, collision.value, nums, coin);
          collisionDetected := true;
          updated := updated + [Damage(brick)];
        } else {
          updated := updated + [brick];
        }
      }
    }
    assert bricks[..|bricks|] == bricks;
    out := BrickOutcome(nb, updated);
  }

  /** The power-up pass of `gameLoop` for one ball. */
  method PowerUpLoop(ball: Ball, newBall: Ball, powerUps: seq<PowerUp>) returns (updated: seq<PowerUp>, gained: nat)
    ensures updated == CollectPowerUps(ball, newBall, powerUps)
    ensures gained == CountPicks(ball, newBall, powerUps)
  {
    updated := [];
    gained := 0;
    for k := 0 to |powerUps|
      invariant updated == CollectPowerUps(ball, newBall, powerUps[..k])
      invariant gained == CountPicks(ball, newBall, powerUps[..k])
    {
      assert powerUps[..k + 1][..k] == powerUps[..k];
      var p := powerUps[k];
      if !p.collected && PowerUpCollision(ball, newBall, p) {
        updated := updated + [p.(collected := true)];
        gained := gained + 1;
      } else {
        updated := updated + [p];
      }
    }
    assert powerUps[..|powerUps|] == powerUps;
  }

  /** One ball's step of `gameLoop`. */
  method StepOneBall(w: World, ball: Ball, dt: real, nums: Numerics, coin: real) returns (s: BallStep)
    ensures s == StepBall(w, ball, dt, nums, coin)
  {
    if !ball.active {
      return BallStep(ball, w);
    }
    var newBall := AfterWalls(MoveBall(ball, dt), nums, coin);
    var out := BrickLoop(ball, newBall, w.bricks, nums, coin);
    var updatedPowerUps, gained := PowerUpLoop(ball, out.ball, w.powerUps);
    s := BallStep(out.ball, World(out.bricks, updatedPowerUps, w.gained + gained));
  }

  datatype Frame = Frame(balls: seq<Ball>, world: World)

  /** All balls of a frame, in array order, each seeing the world as the
      previous one left it. `coins` holds one `Math.random()` draw per
      ball for a corner bounce. */
  function StepBalls(w: World, balls: seq<Ball>, dt: real, nums: Numerics, coins: seq<real>): (f: Frame)
    requires |coins| >= |balls|
    ensures |f.balls| == |balls|
    decreases |balls|
  {
    if |balls| == 0 then Frame([], w)
    else
      var prev := StepBalls(w, balls[..|balls| - 1], dt, nums, coins);
      var step := StepBall(prev.world, balls[|balls| - 1], dt, nums, coins[|balls| - 1]);
      Frame(prev.balls + [step.ball], step.world)
  }

  /** The ball pass of `gameLoop`: every ball in array order, each seeing
      the bricks and power-ups as the previous one left them. */
  method StepAll(w: World, balls: seq<Ball>, dt: real, nums: Numerics, coins: seq<real>) returns (f: Frame)
    requires |coins| >= |balls|
    ensures f == StepBalls(w, balls, dt, nums, coins)
    ensures FieldLaidOut(w.bricks, w.powerUps) ==> FieldLaidOut(f.world.bricks, f.world.powerUps)
  {
    var updated: seq<Ball> := [];
    var world := w;
    for i := 0 to |balls|
      invariant StepBalls(w, balls[..i], dt, nums, coins) == Frame(updated, world)
    {
      assert balls[..i + 1][..i] == balls[..i];
      var s := StepOneBall(world, balls[i], dt, nums, coins[i]);
      updated, world := updated + [s.ball], s.world;
    }
    assert balls[..|balls|] == balls;
    f := Frame(updated, world);
    StepBallsKeepsLayout(w, balls, dt, nums, coins);
    if FieldLaidOut(w.bricks, w.powerUps) {
      SameLayoutKeepsCells(f.world.bricks, w.bricks);
    }
  }

  /** Bricks keep their places and power-ups their positions through
      every frame. */
  predicate SameLayout(a: seq<Brick>, b: seq<Brick>) {
    |a| == |b| &&
    forall i :: 0 <= i < |a| ==> a[i].x == b[i].x && a[i].y == b[i].y && a[i].width == b[i].width && a[i].height == b[i].height
  }

  predicate SamePositions(a: seq<PowerUp>, b: seq<PowerUp>) {
    |a| == |b| && forall k :: 0 <= k < |a| ==> a[k].x == b[k].x && a[k].y == b[k].y
  }

  lemma StepBallKeepsLayout(w: World, b: Ball, dt: real, nums: Numerics, coin: real)
    ensures var s := StepBall(w, b, dt, nums, coin);
            SameLayout(s.world.bricks, w.bricks) && SamePositions(s.world.powerUps, w.powerUps) &&
            s.world.gained >= w.gained &&
            (!b.active ==> s.ball == b && s.world == w)
  {
  }

  lemma {:induction false} StepBallsKeepsLayout(w: World, balls: seq<Ball>, dt: real, nums: Numerics, coins: seq<real>)
    requires |coins| >= |balls|
    ensures var f := StepBalls(w, balls, dt, nums, coins);
            SameLayout(f.world.bricks, w.bricks) && SamePositions(f.world.powerUps, w.powerUps) &&
            f.world.gained >= w.gained &&
            forall i :: 0 <= i < |balls| && !balls[i].active ==> f.balls[i] == balls[i]
    decreases |balls|
  {
    if |balls| > 0 {
      var init := balls[..|balls| - 1];
      StepBallsKeepsLayout(w, init, dt, nums, coins);
      var prev := StepBalls(w, init, dt, nums, coins);
      StepBallKeepsLayout(prev.world, balls[|balls| - 1], dt, nums, coins[|balls| - 1]);
      assert forall i :: 0 <= i < |init| ==> init[i] == balls[i];
    }
  }

  /** Keeping the layout keeps the bricks on distinct grid cells. */
  lemma SameLayoutKeepsCells(a: seq<Brick>, b: seq<Brick>)
    requires SameLayout(a, b) && AllPlaced(b) && DistinctCells(b)
    ensures AllPlaced(a) && DistinctCells(a)
  {
    assert forall i :: 0 <= i < |a| ==> BrickCell(a[i]) == BrickCell(b[i]);
  }

  // ---------------------------------------------------------------------
  // The end of a round
  // ---------------------------------------------------------------------

  /** What the end of a round makes of the world. */
  datatype RoundEnd =
    | Over(bricks: seq<Brick>)
    | Next(bricks: seq<Brick>, powerUps: seq<PowerUp>)

  predicate EndDraws(swapDraws: seq<real>, healthDraws: seq<real>, spawnDraws: seq<real>) {
    TopRowDraws(swapDraws, healthDraws) && SpawnDraws(spawnDraws)
  }

  /** The world update of `endRound`: live bricks move down a row; if one
      reaches the game-over line the game ends, otherwise the power-ups
      move down too and a new top row of bricks and power-ups is added.
      `chance` is the value `GAME_CONFIG.POWERUP.SPAWN_CHANCE` reads as:
      `Undefined` for the configuration as it stands, `Num(SpawnChance)`
      for the intended one. */
  function EndOfRound(bricks: seq<Brick>, powerUps: seq<PowerUp>, round: int,
                      swapDraws: seq<real>, healthDraws: seq<real>, spawnDraws: seq<real>,
                      chance: JsNumber): RoundEnd
    requires EndDraws(swapDraws, healthDraws, spawnDraws)
  {
    var moved := MoveBricksDown(CleanupDestroyedBricks(bricks));
    if CheckGameOver(moved) then Over(moved)
    else
      var movedPowerUps := MovePowerUpsDown(powerUps);
      var top := TopRowBricks(round + 1, movedPowerUps, swapDraws, healthDraws);
      Next(top + moved, movedPowerUps + TopRowPowerUps(top, spawnDraws, chance))
  }

  /** The field update of `endRound`. */
  method AdvanceField(bricks: seq<Brick>, powerUps: seq<PowerUp>, round: int,
                      swapDraws: seq<real>, healthDraws: seq<real>, spawnDraws: seq<real>, chance: JsNumber)
    returns (r: RoundEnd)
    requires EndDraws(swapDraws, healthDraws, spawnDraws)
    requires FieldLaidOut(bricks, powerUps)
    ensures r == EndOfRound(bricks, powerUps, round, swapDraws, healthDraws, spawnDraws, chance)
    ensures r.Over? ==> FieldLaidOut(r.bricks, powerUps)
    ensures r.Next? ==> FieldLaidOut(r.bricks, r.powerUps)
  {
    NextRoundLayout(bricks, powerUps, round, swapDraws, healthDraws, spawnDraws, chance);
    var cleanedBricks := CleanupDestroyedBricks(bricks);
    var movedDownBricks := MoveBricksDown(cleanedBricks);
    if CheckGameOver(movedDownBricks) {
      return Over(movedDownBricks);
    }
    var movedPowerUps := MovePowerUpsDown(powerUps);
    var newTopRowBricks := GenerateTopRowBricks(round + 1, movedPowerUps, swapDraws, healthDraws);
    var newPowerUps := GenerateTopRowPowerUps(newTopRowBricks, spawnDraws, chance);
    r := Next(newTopRowBricks + movedDownBricks, movedPowerUps + newPowerUps);
  }

  /** The game ends exactly when, before the move, a live brick stood in
      row 19 or lower. */
  lemma GameOverWhenRow19(bricks: seq<Brick>, powerUps: seq<PowerUp>, round: int,
                          swapDraws: seq<real>, healthDraws: seq<real>, spawnDraws: seq<real>, chance: JsNumber)
    requires EndDraws(swapDraws, healthDraws, spawnDraws) && AllPlaced(bricks)
    ensures EndOfRound(bricks, powerUps, round, swapDraws, healthDraws, spawnDraws, chance).Over? <==>
            exists i :: 0 <= i < |bricks| && !bricks[i].destroyed && BrickCell(bricks[i]).row >= 19
  {
    MovedGameOverRow(bricks);
  }

  /** When the game goes on, the bricks still stand on distinct grid cells:
      seven new ones fill the first row (the moved power-ups never block
      it) and the others moved down a row; power-ups stay on the field. */
  lemma NextRoundLayout(bricks: seq<Brick>, powerUps: seq<PowerUp>, round: int,
                        swapDraws: seq<real>, healthDraws: seq<real>, spawnDraws: seq<real>, chance: JsNumber)
    requires EndDraws(swapDraws, healthDraws, spawnDraws)
    requires AllPlaced(bricks) && DistinctCells(bricks) && PowerUpsOnField(powerUps)
    ensures match EndOfRound(bricks, powerUps, round, swapDraws, healthDraws, spawnDraws, chance)
            case Over(bs) => AllPlaced(bs) && DistinctCells(bs)
            case Next(bs, ps) =>
              AllPlaced(bs) && DistinctCells(bs) && PowerUpsOnField(ps) &&
              |bs| == 7 + |CleanupDestroyedBricks(bricks)| &&
              (forall i :: 0 <= i < |bs| ==> (BrickCell(bs[i]).row == 0 <==> i < 7))
  {
    var moved := MoveBricksDown(CleanupDestroyedBricks(bricks));
    LiveMovedLayout(bricks);
    if !CheckGameOver(moved) {
      var top := TopRowBricks(round + 1, MovePowerUpsDown(powerUps), swapDraws, healthDraws);
      NewTopRowLayout(round + 1, powerUps, swapDraws, healthDraws);
      JoinRowsKeepsLayout(top, moved);
      NextPowerUpsOnField(powerUps, top, spawnDraws, chance);
    }
  }

  /** With the configuration as it stands (`SPAWN_CHANCE` undefined), a
      round that goes on adds no power-up: the next power-ups are exactly
      the moved ones. */
  lemma AsWrittenRoundAddsNoPowerUps(bricks: seq<Brick>, powerUps: seq<PowerUp>, round: int,
                                     swapDraws: seq<real>, healthDraws: seq<real>, spawnDraws: seq<real>)
    requires EndDraws(swapDraws, healthDraws, spawnDraws)
    ensures match EndOfRound(bricks, powerUps, round, swapDraws, healthDraws, spawnDraws, Undefined)
            case Over(_) => true
            case Next(_, ps) => ps == MovePowerUpsDown(powerUps)
  {
    var moved := MoveBricksDown(CleanupDestroyedBricks(bricks));
    if !CheckGameOver(moved) {
      var movedPowerUps := MovePowerUpsDown(powerUps);
      var top := TopRowBricks(round + 1, movedPowerUps, swapDraws, healthDraws);
      TopRowPowerUpsAsWrittenEmpty(top, spawnDraws);
      assert movedPowerUps + [] == movedPowerUps;
    }
  }

  /** With the intended four-percent chance, a round that goes on keeps the
      moved power-ups first; every power-up after them is a new one in the
      first row, in a column that none of the seven new bricks takes. */
  lemma CorrectedRoundSpawnsInTopRow(bricks: seq<Brick>, powerUps: seq<PowerUp>, round: int,
                                     swapDraws: seq<real>, healthDraws: seq<real>, spawnDraws: seq<real>)
    requires EndDraws(swapDraws, healthDraws, spawnDraws) && PowerUpsOnField(powerUps)
    ensures match EndOfRound(bricks, powerUps, round, swapDraws, healthDraws, spawnDraws, Num(SpawnChance))
            case Over(_) => true
            case Next(bs, ps) => SpawnsAfterMoved(MovePowerUpsDown(powerUps), bs, ps)
  {
    var moved := MoveBricksDown(CleanupDestroyedBricks(bricks));
    if !CheckGameOver(moved) {
      var movedPowerUps := MovePowerUpsDown(powerUps);
      var top := TopRowBricks(round + 1, movedPowerUps, swapDraws, healthDraws);
      NewTopRowLayout(round + 1, powerUps, swapDraws, healthDraws);
      TopRowJoined(movedPowerUps, top, moved, spawnDraws);
    }
  }

  /** The power-ups `ps` start with `moved`, and each one after those is in
      the first row, in a column none of the first seven bricks of `bs`
      takes. */
  predicate SpawnsAfterMoved(moved: seq<PowerUp>, bs: seq<Brick>, ps: seq<PowerUp>) {
    |moved| <= |ps| && ps[..|moved|] == moved && |bs| >= 7 &&
    forall k :: |moved| <= k < |ps| ==>
      PowerUpCell(ps[k]).row == 0 &&
      forall i :: 0 <= i < 7 ==> PowerUpCell(ps[k]).col != BrickCell(bs[i]).col
  }

  lemma TopRowJoined(movedPowerUps: seq<PowerUp>, top: seq<Brick>, below: seq<Brick>, spawnDraws: seq<real>)
    requires SpawnDraws(spawnDraws) && |top| == 7
    ensures SpawnsAfterMoved(movedPowerUps, top + below,
                             movedPowerUps + TopRowPowerUps(top, spawnDraws, Num(SpawnChance)))
  {
    var extra := TopRowPowerUps(top, spawnDraws, Num(SpawnChance));
    var bs := top + below;
    var ps := movedPowerUps + extra;
    TopRowPowerUpsSpawn(top, spawnDraws);
    assert ps[..|movedPowerUps|] == movedPowerUps;
    forall k | |movedPowerUps| <= k < |ps|
      ensures PowerUpCell(ps[k]).row == 0 &&
              forall i :: 0 <= i < 7 ==> PowerUpCell(ps[k]).col != BrickCell(bs[i]).col
    {
      assert ps[k] == extra[k - |movedPowerUps|];
      assert forall i :: 0 <= i < 7 ==> bs[i] == top[i];
    }
  }

  // ---------------------------------------------------------------------
  // The component
  // ---------------------------------------------------------------------

  /** Bricks on distinct grid cells and power-ups never above the first
      row. */
  predicate FieldLaidOut(bricks: seq<Brick>, powerUps: seq<PowerUp>) {
    AllPlaced(bricks) && DistinctCells(bricks) && PowerUpsOnField(powerUps)
  }

  /** The field `initializeGame` lays out. */
  method FirstField(swapDraws: seq<real>, healthDraws: seq<real>, powerUpDraws: seq<real>, countDraw: real)
    returns (bricks: seq<Brick>, powerUps: seq<PowerUp>)
    requires InitialDraws(swapDraws, healthDraws) && InitialPowerUpDraws(powerUpDraws, countDraw)
    ensures bricks == InitialBricks(swapDraws, healthDraws)
    ensures powerUps == InitialPowerUps(bricks, powerUpDraws, countDraw)
    ensures FieldLaidOut(bricks, powerUps)
  {
    bricks := GenerateBricks(swapDraws, healthDraws);
    powerUps := GenerateInitialPowerUps(bricks, powerUpDraws, countDraw);
    InitialFieldLayout(swapDraws, healthDraws, powerUpDraws, countDraw);
  }

  class Game {
    var gameState: GameState
    var round: int
    var ballCount: int
    var nextBallCount: int
    /** The launch point is (launchX, LaunchY). */
    var launchX: real
    var aim: Option<Point>
    var bricks: seq<Brick>
    var powerUps: seq<PowerUp>
    var balls: seq<Ball>
    var isEndingRound: bool
    /** Balls a click has scheduled and the 80 ms timers have not
        launched yet. */
    var scheduled: seq<Ball>
    /** The balls handed to the pending 500 ms end-of-round timer. */
    var pendingEnd: Option<seq<Ball>>
    /** Whether the 100 ms return-to-ready timer is pending. */
    var pendingReady: bool

    /** Rounds count from one, a round launches at least one ball and
        never more than the next round will, bricks stand on distinct grid
        cells and power-ups never above the first row. */
    predicate Valid()
      reads this
    {
      round >= 1 && 1 <= ballCount <= nextBallCount && FieldLaidOut(bricks, powerUps)
    }

    /** Mounting the component: a fresh game with no timers pending. */
    constructor (swapDraws: seq<real>, healthDraws: seq<real>, powerUpDraws: seq<real>, countDraw: real)
      requires InitialDraws(swapDraws, healthDraws) && InitialPowerUpDraws(powerUpDraws, countDraw)
      ensures Valid()
      ensures gameState == Ready && round == 1 && ballCount == 1 && nextBallCount == 1
      ensures bricks == InitialBricks(swapDraws, healthDraws)
      ensures powerUps == InitialPowerUps(bricks, powerUpDraws, countDraw)
      ensures balls == [] && launchX == CanvasWidth / 2.0 && aim == None && !isEndingRound
      ensures scheduled == [] && pendingEnd == None && !pendingReady
    {
      aim := None;
      scheduled := [];
      pendingEnd := None;
      pendingReady := false;
      new;
      InitializeGame(swapDraws, healthDraws, powerUpDraws, countDraw);
    }

    /** `initializeGame`: a new first field and the starting counters. The
        aim and any pending timers are left as they are. */
    method InitializeGame(swapDraws: seq<real>, healthDraws: seq<real>, powerUpDraws: seq<real>, countDraw: real)
      requires InitialDraws(swapDraws, healthDraws) && InitialPowerUpDraws(powerUpDraws, countDraw)
      modifies this
      ensures Valid()
      ensures gameState == Ready && round == 1 && ballCount == 1 && nextBallCount == 1
      ensures bricks == InitialBricks(swapDraws, healthDraws)
      ensures powerUps == InitialPowerUps(bricks, powerUpDraws, countDraw)
      ensures balls == [] && launchX == CanvasWidth / 2.0 && !isEndingRound
      ensures aim == old(aim) && scheduled == old(scheduled)
      ensures pendingEnd == old(pendingEnd) && pendingReady == old(pendingReady)
    {
      var bs, ps := FirstField(swapDraws, healthDraws, powerUpDraws, countDraw);
      Restart(bs, ps);
    }

    /** The counters of a fresh game over the given field. */
    method Restart(bs: seq<Brick>, ps: seq<PowerUp>)
      requires FieldLaidOut(bs, ps)
      modifies this
      ensures Valid()
      ensures gameState == Ready && round == 1 && ballCount == 1 && nextBallCount == 1
      ensures bricks == bs && powerUps == ps
      ensures balls == [] && launchX == CanvasWidth / 2.0 && !isEndingRound
      ensures aim == old(aim) && scheduled == old(scheduled)
      ensures pendingEnd == old(pendingEnd) && pendingReady == old(pendingReady)
    {
      bricks, powerUps := bs, ps;
      balls := [];
      round := 1;
      ballCount := 1;
      nextBallCount := 1;
      gameState := Ready;
      launchX := CanvasWidth / 2.0;
      isEndingRound := false;
    }

    /** `handleMouseMove`: while ready or aiming, the mouse position becomes the
        aim and a ready game starts aiming. */
    method MouseMove(x: real, y: real)
      modifies this
      ensures old(gameState) == Ready || old(gameState) == Aiming ==>
                aim == Some(Point(x, y)) && gameState == Aiming
      ensures !(old(gameState) == Ready || old(gameState) == Aiming) ==>
                aim == old(aim) && gameState == old(gameState)
      ensures round == old(round) && ballCount == old(ballCount) && nextBallCount == old(nextBallCount)
      ensures launchX == old(launchX) && bricks == old(bricks) && powerUps == old(powerUps) && balls == old(balls)
      ensures isEndingRound == old(isEndingRound) && scheduled == old(scheduled)
      ensures pendingEnd == old(pendingEnd) && pendingReady == old(pendingReady)
    {
      if gameState != Ready && gameState != Aiming {
        return;
      }
      aim := Some(Point(x, y));
      if gameState == Ready {
        gameState := Aiming;
      }
    }

    /** `handleClick`: while aiming, schedules `ballCount` balls at the
        launch point with the launch velocity (vx, vy), starts shooting
        and clears the aim. */
    method Click(vx: real, vy: real)
      requires Valid()
      modifies this
      ensures Valid()
      ensures old(gameState) == Aiming ==>
                |scheduled| == |old(scheduled)| + old(ballCount) &&
                scheduled[..|old(scheduled)|] == old(scheduled) &&
                (forall i :: |old(scheduled)| <= i < |scheduled| ==>
                   scheduled[i] == CreateBall(launchX, LaunchY, vx, vy)) &&
                gameState == Shooting && aim == None
      ensures old(gameState) != Aiming ==>
                scheduled == old(scheduled) && gameState == old(gameState) && aim == old(aim)
      ensures round == old(round) && ballCount == old(ballCount) && nextBallCount == old(nextBallCount)
      ensures launchX == old(launchX) && bricks == old(bricks) && powerUps == old(powerUps) && balls == old(balls)
      ensures isEndingRound == old(isEndingRound)
      ensures pendingEnd == old(pendingEnd) && pendingReady == old(pendingReady)
    {
      if gameState != Aiming {
        return;
      }
      var launches := scheduled;
      for i := 0 to ballCount
        invariant |launches| == |scheduled| + i
        invariant launches[..|scheduled|] == scheduled
        invariant forall k :: |scheduled| <= k < |launches| ==> launches[k] == CreateBall(launchX, LaunchY, vx, vy)
      {
        launches := launches + [CreateBall(launchX, LaunchY, vx, vy)];
      }
      scheduled := launches;
      gameState := Shooting;
      aim := None;
    }

    /** One 80 ms launch timer firing: the next scheduled ball joins the
        balls in play. */
    method LaunchNext()
      requires |scheduled| > 0
      modifies this
      ensures balls == old(balls) + [old(scheduled)[0]] && scheduled == old(scheduled)[1..]
      ensures gameState == old(gameState) && round == old(round) && ballCount == old(ballCount)
      ensures nextBallCount == old(nextBallCount) && launchX == old(launchX) && aim == old(aim)
      ensures bricks == old(bricks) && powerUps == old(powerUps) && isEndingRound == old(isEndingRound)
      ensures pendingEnd == old(pendingEnd) && pendingReady == old(pendingReady)
    {
      balls := balls + [scheduled[0]];
      scheduled := scheduled[1..];
    }

    /** `gameLoop`, one animation frame of `dt` seconds: nothing happens
        unless shooting; otherwise every ball takes its step and, once all
        have landed, the end-of-round timer is armed (only once). */
    method Tick(dt: real, nums: Numerics, coins: seq<real>)
      requires Valid() && |coins| >= |balls|
      modifies this
      ensures Valid()
      ensures old(gameState) != Shooting ==>
                balls == old(balls) && bricks == old(bricks) && powerUps == old(powerUps) &&
                nextBallCount == old(nextBallCount) && isEndingRound == old(isEndingRound) &&
                pendingEnd == old(pendingEnd)
      ensures old(gameState) == Shooting ==>
                var f := StepBalls(World(old(bricks), old(powerUps), 0), old(balls), dt, nums, coins);
                balls == f.balls && bricks == f.world.bricks && powerUps == f.world.powerUps &&
                nextBallCount == old(nextBallCount) + f.world.gained &&
                (AllBallsLanded(f.balls) && !old(isEndingRound) ==> isEndingRound && pendingEnd == Some(f.balls)) &&
                (!(AllBallsLanded(f.balls) && !old(isEndingRound)) ==>
                   isEndingRound == old(isEndingRound) && pendingEnd == old(pendingEnd))
      ensures gameState == old(gameState) && round == old(round) && ballCount == old(ballCount)
      ensures launchX == old(launchX) && aim == old(aim) && scheduled == old(scheduled)
      ensures pendingReady == old(pendingReady)
    {
      if gameState == Shooting {
        var f := StepAll(World(bricks, powerUps, 0), balls, dt, nums, coins);
        CommitFrame(f);
      }
    }

    /** Stores one frame's balls and world, and arms the end-of-round timer
        once every ball has landed. */
    method CommitFrame(f: Frame)
      requires Valid() && FieldLaidOut(f.world.bricks, f.world.powerUps)
      modifies this
      ensures Valid()
      ensures balls == f.balls && bricks == f.world.bricks && powerUps == f.world.powerUps
      ensures nextBallCount == old(nextBallCount) + f.world.gained
      ensures AllBallsLanded(f.balls) && !old(isEndingRound) ==> isEndingRound && pendingEnd == Some(f.balls)
      ensures !(AllBallsLanded(f.balls) && !old(isEndingRound)) ==>
                isEndingRound == old(isEndingRound) && pendingEnd == old(pendingEnd)
      ensures gameState == old(gameState) && round == old(round) && ballCount == old(ballCount)
      ensures launchX == old(launchX) && aim == old(aim) && scheduled == old(scheduled)
      ensures pendingReady == old(pendingReady)
    {
      balls, bricks, powerUps := f.balls, f.world.bricks, f.world.powerUps;
      nextBallCount := nextBallCount + f.world.gained;
      if AllBallsLanded(balls) && !isEndingRound {
        isEndingRound := true;
        pendingEnd := Some(balls);
      }
    }

    /** The 500 ms end-of-round timer firing (`endRound`): the launch point
        moves to the last ball, in launch order, strictly inside the canvas,
        and the world moves on a row; when
        the game goes on the round and ball count advance, the balls are
        cleared and the return-to-ready timer is armed. */
    method EndRound(swapDraws: seq<real>, healthDraws: seq<real>, spawnDraws: seq<real>, chance: JsNumber)
      requires Valid() && pendingEnd.Some? && EndDraws(swapDraws, healthDraws, spawnDraws)
      modifies this
      ensures Valid()
      ensures pendingEnd == None && launchX == LastLandedBallX(old(pendingEnd).value)
      ensures match EndOfRound(old(bricks), old(powerUps), old(round), swapDraws, healthDraws, spawnDraws, chance)
              case Over(bs) =>
                gameState == GameOver && bricks == bs && powerUps == old(powerUps) &&
                round == old(round) && ballCount == old(ballCount) && balls == old(balls) &&
                pendingReady == old(pendingReady)
              case Next(bs, ps) =>
                gameState == old(gameState) && bricks == bs && powerUps == ps &&
                round == old(round) + 1 && ballCount == old(nextBallCount) && balls == [] && pendingReady
      ensures nextBallCount == old(nextBallCount) && aim == old(aim) && scheduled == old(scheduled)
      ensures isEndingRound == old(isEndingRound)
    {
      var outcome := AdvanceField(bricks, powerUps, round, swapDraws, healthDraws, spawnDraws, chance);
      CommitRoundEnd(outcome, pendingEnd.value);
    }

    /** The state updates of `endRound` once the field update is known:
        game over keeps the round, the ball count and the balls; otherwise
        the next round starts with the ball count earned so far. */
    method CommitRoundEnd(outcome: RoundEnd, finalBalls: seq<Ball>)
      requires Valid()
      requires outcome.Over? ==> FieldLaidOut(outcome.bricks, powerUps)
      requires outcome.Next? ==> FieldLaidOut(outcome.bricks, outcome.powerUps)
      modifies this
      ensures Valid()
      ensures pendingEnd == None && launchX == LastLandedBallX(finalBalls)
      ensures match outcome
              case Over(bs) =>
                gameState == GameOver && bricks == bs && powerUps == old(powerUps) &&
                round == old(round) && ballCount == old(ballCount) && balls == old(balls) &&
                pendingReady == old(pendingReady)
              case Next(bs, ps) =>
                gameState == old(gameState) && bricks == bs && powerUps == ps &&
                round == old(round) + 1 && ballCount == old(nextBallCount) && balls == [] && pendingReady
      ensures nextBallCount == old(nextBallCount) && aim == old(aim) && scheduled == old(scheduled)
      ensures isEndingRound == old(isEndingRound)
    {
      var x := LastLandedBallX(finalBalls);
      match outcome {
        case Over(bs) =>
          CommitGameOver(bs, x);
        case Next(bs, ps) =>
          CommitNextRound(bs, ps, x);
      }
    }

    /** Game over: the bricks that reached the bottom row stay on screen. */
    method CommitGameOver(bs: seq<Brick>, x: real)
      requires Valid() && FieldLaidOut(bs, powerUps)
      modifies this
      ensures Valid() && pendingEnd == None && launchX == x
      ensures gameState == GameOver && bricks == bs && powerUps == old(powerUps)
      ensures round == old(round) && ballCount == old(ballCount) && balls == old(balls)
      ensures pendingReady == old(pendingReady) && nextBallCount == old(nextBallCount)
      ensures aim == old(aim) && scheduled == old(scheduled) && isEndingRound == old(isEndingRound)
    {
      pendingEnd := None;
      launchX := x;
      gameState := GameOver;
      bricks := bs;
    }

    /** The next round: the new field, one more round, the ball count
        earned so far, and the return-to-ready timer armed. */
    method CommitNextRound(bs: seq<Brick>, ps: seq<PowerUp>, x: real)
      requires Valid() && FieldLaidOut(bs, ps)
      modifies this
      ensures Valid() && pendingEnd == None && launchX == x
      ensures gameState == old(gameState) && bricks == bs && powerUps == ps
      ensures round == old(round) + 1 && ballCount == old(nextBallCount) && balls == [] && pendingReady
      ensures nextBallCount == old(nextBallCount)
      ensures aim == old(aim) && scheduled == old(scheduled) && isEndingRound == old(isEndingRound)
    {
      pendingEnd := None;
      launchX := x;
      bricks, powerUps := bs, ps;
      round := round + 1;
      ballCount := nextBallCount;
      balls := [];
      pendingReady := true;
    }

    /** The 100 ms timer after a round: ready to aim again. */
    method ReturnToReady()
      requires pendingReady
      modifies this
      ensures gameState == Ready && !isEndingRound && !pendingReady
      ensures round == old(round) && ballCount == old(ballCount) && nextBallCount == old(nextBallCount)
      ensures launchX == old(launchX) && aim == old(aim) && bricks == old(bricks) && powerUps == old(powerUps)
      ensures balls == old(balls) && scheduled == old(scheduled) && pendingEnd == old(pendingEnd)
    {
      gameState := Ready;
      isEndingRound := false;
      pendingReady := false;
    }
  }
}
