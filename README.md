# Brick game: a Dafny model

This project models the core of a browser brick-breaking game. The player aims a volley of balls from the bottom of a 955 × 800 canvas. The balls rebound off the side walls, the ceiling and a grid of bricks, 14 columns wide. Each brick has a health count and loses one point per hit. A ball that reaches the floor lands. Once the volley is over, the last ball of the volley in launch order that lies strictly inside the canvas sets the next launch point, or the canvas centre when there is none.

Once every ball has landed, the round ends:
- destroyed bricks are removed;
- the remaining bricks move down one row, and the game is over if one reaches the bottom line;
- power-ups move down;
- a new top row of bricks appears. Its minimum health is the round number, so the bricks get tougher every round; their colour changes every five health points.

A ball that passes over a power-up earns one extra ball for the next volley. A local leaderboard keeps the ten best scores, ranked by round and then by ball count.

The project is organised in one module per source file:

- `config.dfy` (`Config`): the game constants, the collision kinds, and JavaScript's numeric helpers.
  - `Math.round` is `JsRound`; the truncating `%` is `JsRem`; `Math.floor(Math.random() * n)` is `RandomIndex`.
- `entities.dfy` (`Entities`): balls, bricks, power-ups, rectangles and grid cells.
- `collision.dfy` (`Collision`): wall collision, the overlap classifier for ball against rectangle, the bounce, the swept (continuous) brick test, and the swept power-up pickup test.
- `game_logic.dfy` (`GameLogic`): brick colours, the first field, the new top row, moving bricks and power-ups down, the game-over test, the occupied cells, power-up placement, clean-up, and the next launch point (`getLastLandedBallX`).
- `game.dfy` (`GameComponent`): one frame of motion as functions over the balls and the world, and the game component as the class `Game`.
  - The class holds the component's state variables as fields, and one method per handler: `InitializeGame`, `MouseMove`, `Click`, `Tick` and `EndRound`.
  - The timers become methods the host calls when they fire: `LaunchNext`, `EndRound` and `ReturnToReady`.
- `leaderboard.dfy` (`Ranking`): the ranked, capped score list. `Ranking.Leaderboard` has the stored value as its one field.

Coordinates and speeds are `real`s. Each random draw is a parameter in [0, 1), so the model covers every possible outcome of the random choices. `Math.sqrt` and `Math.atan2` are supplied as the `Numerics` functions. The contracts only assume that `sqrt` squares back where a square root exists.

## Model

| member | source | states |
|---|---|---|
| Config.JsRound | src/utils/gameLogic.js:220-221 | `Math.round` gives the integer within half of x, and rounds a half up |
| Config.RandomIndex | src/utils/gameLogic.js:34 | `Math.floor(r * n)` is the index j < n with j ≤ r·n < j + 1 |
| Config.JsRem | src/utils/gameLogic.js:11 | JavaScript's `%`: the remainder is smaller than the divisor in magnitude, equals the Euclidean remainder for a non-negative dividend, and is never positive for a negative one |
| Config.JsRemOdd | src/utils/gameLogic.js:11 | negating the dividend negates the remainder, unlike Dafny's `%` |
| Entities.CellAtOffset | src/utils/gameLogic.js:220-221 | a point less than half a pitch right of and below a cell's corner rounds to that cell |
| Collision.WallCollision | src/utils/collision.js:136-150 | exactly which wall a ball touches: left first, then right, top, bottom; none when it is clear of all four |
| Collision.IsPointInRect | src/utils/collision.js:159-162 | `isPointInRect` with all four edges inclusive; its properties are the two rows below |
| Collision.PointInRectInclusive | src/utils/collision.js:159-162 | every point of the rectangle, corners and edges included, is inside; a point beyond its width is not |
| Collision.CentreInRectOverlaps | src/utils/collision.js:21-24 | a ball whose centre is inside the rectangle is never classed as disjoint |
| Collision.CornerCollision | src/utils/collision.js:67-83 | `getCornerCollision`: the corners checked in the order top-left, top-right, bottom-left, bottom-right; its meaning is stated on `FirstCornerWithin` |
| Collision.FirstCornerWithin | src/utils/collision.js:67-83 | a reported corner is within the radius and no corner checked before it is; none is reported exactly when no corner is within the radius |
| Collision.Min4 | src/utils/collision.js:45 | the minimum of the four side distances is one of them and no larger than any |
| Collision.BallRectCollision | src/utils/collision.js:9-59 | disjoint boxes give no collision; for overlapping boxes a corner hit, when there is one, is what is reported, and a reported corner is within the radius; a side is reported only without a corner hit and only when the ball moves towards it |
| Collision.ReportedSideIsNearest | src/utils/collision.js:39-56 | a reported side is the nearest of the four sides |
| Collision.NearestSideIsReported | src/utils/collision.js:39-56 | an overlapping ball with no corner hit, moving towards its nearest side, always gets a side reported |
| Collision.NormalizedAngle | src/utils/collision.js:105-106 | the folded approach angle lies in [0, 90] degrees |
| Collision.Bounce | src/utils/collision.js:90-129 | a bounce keeps position, activity and both speed magnitudes; a corner bounce flips exactly one velocity component |
| Collision.EdgeBounceInvolution | src/utils/collision.js:92-99 | a side bounce negates one component, and bouncing twice off the same side restores the ball |
| Collision.CornerBounceDeterministic | src/utils/collision.js:104-124 | away from the 45° band the coin is not used: a shallow hit flips vx, a steep one flips vy |
| Collision.Crossing | src/utils/collision.js:192 | the crossing time puts the path exactly on the edge line |
| Collision.AxisCrossing | src/utils/collision.js:191-203 | a side crossing is reported only for a ball moving towards it, at t in [0, 1], on the edge line and within the widened extent |
| Collision.CrossedHit | src/utils/collision.js:196-201 | a hit records its side, its time and the contact point on the edge line |
| Collision.EdgeCandidate | src/utils/collision.js:191-252 | each side's candidate lies on the path at t in [0, 1], on that side's line, within its extent, and only moving towards that side |
| Collision.FirstNonNegativeRoot | src/utils/collision.js:291-300 | the returned time is non-negative and is one of the two quadratic roots, so the discriminant is non-negative |
| Collision.CircleLineIntersection | src/utils/collision.js:286-301 | a returned time is never negative |
| Collision.QuadraticRoot | src/utils/collision.js:294-295 | either root formula solves the quadratic exactly |
| Collision.FirstNonNegativeRootIsRoot | src/utils/collision.js:291-300 | the returned time is a zero of the quadratic |
| Collision.CircleLineQuadraticMeaning | src/utils/collision.js:287-289 | the quadratic's value at u is the squared distance from the path point at u to the corner, minus r² |
| Collision.CircleLineRootOnCircle | src/utils/collision.js:286-301 | the returned time puts the ball centre exactly on the circle around the corner |
| Collision.CornerCandidate | src/utils/collision.js:255-270 | a corner candidate lies on the path at t in [0, 1] and is the circle–line intersection for that corner |
| Collision.Candidates | src/utils/collision.js:191-270 | all eight candidates lie on the path and respect the direction of approach |
| Collision.SelectAllWitness | src/utils/collision.js:182-272 | the running selection is the start value or the first candidate with the smallest time, ties going to the earliest |
| Collision.ContinuousCollision | src/utils/collision.js:171-273 | `detectContinuousCollision` as a function; its meaning is stated by `ContinuousCollisionOnPath` |
| Collision.ContinuousCollisionOnPath | src/utils/collision.js:171-273 | a reported contact lies on the path before its end and is the earliest candidate (ties to the earlier); no report means no candidate before t = 1 |
| Collision.EdgeChecks | src/utils/collision.js:182-252 | the four side checks, run in order, give the selection over the side candidates |
| Collision.DetectContinuousCollision | src/utils/collision.js:171-273 | the method returns the swept-test result |
| Collision.SweptHitFromBelow | src/utils/collision.js:171-273 | a ball moving up from (80, 95) to (80, 75) into the brick at (50, 50, 60×30) hits its bottom side at t = 0.25 at (80, 90) |
| Collision.Clamp01 | src/utils/collision.js:343-345 | the clamped parameter lies in [0, 1] and equals v when v already does |
| Collision.ClosestParam | src/utils/collision.js:342-345 | the parameter lies in [0, 1] and is the clamped vertex of the distance quadratic |
| Collision.ClampedQuotient | src/utils/collision.js:343-345 | clamping the quotient to [0, 1] gives the clamped vertex |
| Collision.PowerUpCollision | src/utils/collision.js:310-355 | an end point within the pickup radius always picks up; a path shorter than 0.1 picks up only at an end point |
| Collision.ClosestParamIsClosest | src/utils/collision.js:342-354 | the clamped parameter gives the point on the segment nearest to the power-up |
| Collision.PowerUpCollisionExact | src/utils/collision.js:310-355 | for a path of at least 0.1 the test holds exactly when some point of the segment is within the pickup radius |
| GameLogic.BrickColor | src/utils/gameLogic.js:8-13 | a live brick's colour index is in the palette; health at or below zero gives an index of at most zero: a negative index names no palette entry, and the index −0 (health −49 … −45, and every 50 below) is entry 0 |
| GameLogic.BandColor | src/utils/gameLogic.js:8-13 | healths 5k+1 … 5k+5 share the colour k mod 10 |
| GameLogic.ColorCycle | src/utils/gameLogic.js:8-13 | colours repeat every 50 health points |
| GameLogic.GridCellsWellFormed | src/utils/gameLogic.js:25-30 | the position list holds each of the 6 × 14 cells once, all in the grid |
| GameLogic.GridPositions | src/utils/gameLogic.js:25-30 | the nested loop fills the array, row by row, with every grid position |
| GameLogic.SwapPermutes | src/utils/gameLogic.js:35 | a swap keeps the multiset and keeps distinct elements distinct |
| GameLogic.ShuffleFromPermutes | src/utils/gameLogic.js:33-36 | the Fisher–Yates passes permute the list |
| GameLogic.ShuffledPermutes | src/utils/gameLogic.js:33-36 | the shuffle is a permutation and keeps distinct elements distinct |
| GameLogic.Shuffle | src/utils/gameLogic.js:33-36 | the in-place shuffle of an array leaves the shuffled sequence of its old contents |
| GameLogic.ShuffledMember | src/utils/gameLogic.js:33-36 | every element of the shuffle comes from the input |
| GameLogic.NewBrickCell | src/utils/gameLogic.js:46-56 | a brick created for a cell maps back to that cell |
| GameLogic.FortyPercent | src/utils/gameLogic.js:39 | the count is floor(0.4 n) |
| GameLogic.Half | src/utils/gameLogic.js:104 | the count is floor(n / 2) |
| GameLogic.InitialBrickCountIs33 | src/utils/gameLogic.js:39 | the first field has 33 bricks |
| GameLogic.InitialHealth | src/utils/gameLogic.js:44 | the health of a first-round brick is 1, 2 or 3 |
| GameLogic.InitialBricks | src/utils/gameLogic.js:20-61 | the first field as a function of the draws; its properties are `InitialBricksWellFormed`, and `GenerateBricks` computes it |
| GameLogic.InitialBricksWellFormed | src/utils/gameLogic.js:20-61 | 33 live bricks on distinct grid cells, with health 1–3, full health, and matching colour |
| GameLogic.GenerateBricks | src/utils/gameLogic.js:20-61 | the loops build the specified first field |
| GameLogic.BlockedColumns | src/utils/gameLogic.js:79-87 | a column is blocked exactly when some power-up rounds to the top-row cell of that column |
| GameLogic.FreeColumns | src/utils/gameLogic.js:90-95 | exactly the unblocked columns below n, in increasing order |
| GameLogic.AllColumnsFree | src/utils/gameLogic.js:90-95 | with nothing blocked, all columns are free |
| GameLogic.TopRowHealth | src/utils/gameLogic.js:75-109 | the health of a new brick is the round's minimum, or one more |
| GameLogic.TopRowBricks | src/utils/gameLogic.js:70-126 | the new top row as a function of the round, the power-ups and the draws; its properties are `TopRowBricksWellFormed`, and `GenerateTopRowBricks` computes it |
| GameLogic.TopRowBricksWellFormed | src/utils/gameLogic.js:70-126 | the new row has floor(free/2) bricks, each on a distinct free top-row cell, on no power-up's cell, with health in the round's band, full health and matching colour |
| GameLogic.TopRowBricksUnblocked | src/utils/gameLogic.js:90-104 | with no power-up in the top row, seven bricks are placed |
| GameLogic.CollectBlockedColumns | src/utils/gameLogic.js:79-87 | the loop collects exactly the blocked columns |
| GameLogic.ListFreeColumns | src/utils/gameLogic.js:90-95 | the loop lists exactly the free columns |
| GameLogic.GenerateTopRowBricks | src/utils/gameLogic.js:70-126 | the loops build the specified top row |
| GameLogic.BrickCells | src/utils/gameLogic.js:180-186 | exactly the cells of all bricks, destroyed ones included |
| GameLogic.OccupiedCells | src/utils/gameLogic.js:215-225 | exactly the cells of live bricks |
| GameLogic.GetOccupiedCells | src/utils/gameLogic.js:215-225 | the loop collects exactly the occupied cells |
| GameLogic.CreatePowerUp | src/utils/gameLogic.js:161-171 | an uncollected power-up of the configured size at the point; `CentreCell` maps one made at a cell's centre back to that cell |
| GameLogic.CentreCell | src/utils/gameLogic.js:192-193 | a power-up placed at a cell's centre maps back to that cell |
| GameLogic.CentreInjective | src/utils/gameLogic.js:192-193 | distinct cells have distinct centres |
| GameLogic.EmptyCentresMembers | src/utils/gameLogic.js:188-200 | a centre is listed exactly when its cell is free of bricks and above the placement limit |
| GameLogic.EmptyCentresDistinct | src/utils/gameLogic.js:188-200 | no centre is listed twice |
| GameLogic.PowerUpCount | src/utils/gameLogic.js:204-205 | the count is at most 3, at most the number of empty cells, and at least 1 when one exists |
| GameLogic.InitialPowerUps | src/utils/gameLogic.js:178-208 | the first power-ups as a function of the bricks and the draws; its properties are `InitialPowerUpsWellFormed`, and `GenerateInitialPowerUps` computes it |
| GameLogic.InitialPowerUpsWellFormed | src/utils/gameLogic.js:178-208 | at most three power-ups, at least one if any cell is free, each at the centre of a distinct free cell in the grid |
| GameLogic.GenerateInitialPowerUps | src/utils/gameLogic.js:178-208 | the loops and the shuffle build the specified initial power-ups |
| GameLogic.CollectBrickCells | src/utils/gameLogic.js:180-186 | the loop collects exactly every brick's cell |
| GameLogic.ListEmptyCentres | src/utils/gameLogic.js:188-200 | the nested loop lists exactly the free centres, in grid order |
| GameLogic.MoveBricksDown | src/utils/gameLogic.js:133-140 | each brick, in order, moves down by one row pitch and nothing else changes |
| GameLogic.MovedDownCell | src/utils/gameLogic.js:133-140 | a moved brick is in the next row of the same column |
| GameLogic.MoveBricksDownCells | src/utils/gameLogic.js:133-140 | every brick's cell moves one row down |
| GameLogic.CheckGameOver | src/utils/gameLogic.js:147-153 | the game is over exactly when a live brick reaches the bottom line |
| GameLogic.ReachesBottomRow | src/utils/gameLogic.js:147-153 | a brick reaches the bottom line exactly when its row is 20 or more |
| GameLogic.CleanupDestroyedBricks | src/utils/gameLogic.js:350-352 | exactly the live bricks are kept |
| GameLogic.CleanupAppend | src/utils/gameLogic.js:350-352 | clean-up distributes over concatenation |
| GameLogic.CleanupIdempotent | src/utils/gameLogic.js:350-352 | cleaning twice is cleaning once |
| GameLogic.CleanupKeepsOccupiedAndVerdict | src/utils/gameLogic.js:350-352 | clean-up changes neither the occupied cells nor the game-over verdict |
| GameLogic.MovePowerUpsDown | src/utils/gameLogic.js:232-241 | exactly the uncollected power-ups that stay above the drop line are kept, each moved down one row |
| GameLogic.MovePowerUpsDownAppend | src/utils/gameLogic.js:232-241 | moving down distributes over concatenation, so the kept power-ups stay in their order |
| GameLogic.MovePowerUpsDownOne | src/utils/gameLogic.js:232-241 | a single power-up is kept, one row lower, exactly when it is uncollected and stays above the drop line |
| GameLogic.MovedPowerUpsLeaveTopRow | src/utils/gameLogic.js:232-241 | moved power-ups are never in the top row, so they block no column |
| GameLogic.CreateBall | src/utils/gameLogic.js:303-314 | an active ball at the given position and velocity; `CreatedBallInPlay` is its partner |
| GameLogic.AllBallsLanded | src/utils/gameLogic.js:321-326 | false for an empty volley; otherwise true exactly when no ball is active |
| GameLogic.CreatedBallInPlay | src/utils/gameLogic.js:303-343 | a volley that holds a just-created ball has not landed; a created ball inside the canvas that comes last gives the next launch point |
| GameLogic.LastLandedBallX | src/utils/gameLogic.js:333-343 | the x of the last ball strictly inside the canvas, or the canvas centre when there is none; always strictly inside |
| GameLogic.BrickColumns | src/utils/gameLogic.js:253-257 | exactly the columns that hold a new brick |
| GameLogic.TopRowPowerUps | src/utils/gameLogic.js:248-274 | the new power-ups as a function of the new bricks, the draws and the spawn chance; its properties are the rows below, and `GenerateTopRowPowerUps` computes it |
| GameLogic.SpawnedPowerUps | src/utils/gameLogic.js:260-272 | a top-row power-up appears in a column exactly when the column is free and its draw is below the chance |
| GameLogic.TopRowPowerUpsAsWrittenEmpty | src/utils/gameLogic.js:264 | with the chance undefined, no power-up is ever spawned |
| GameLogic.NeverSpawns | src/utils/gameLogic.js:264 | a comparison with undefined never passes |
| GameLogic.TopRowPowerUpsSpawn | src/utils/gameLogic.js:248-274 | with a 4% chance, a column gets a power-up exactly when it has no new brick and its draw is below 0.04; each spawned power-up is in the top row at its cell's centre |
| GameLogic.GenerateTopRowPowerUps | src/utils/gameLogic.js:248-274 | the loop builds the specified new power-ups |
| GameLogic.CleanupKeepsLayout | src/utils/gameLogic.js:350-352 | clean-up keeps bricks on grid cells and on distinct cells |
| GameLogic.MoveDownKeepsLayout | src/utils/gameLogic.js:133-140 | moving down keeps bricks on distinct grid cells, none in the top row |
| GameLogic.JoinRowsKeepsLayout | src/components/Game.js:232 | the new row followed by the moved bricks has distinct cells, and its row-0 bricks are exactly the new ones |
| GameLogic.InitialFieldLayout | src/components/Game.js:67-69 | the first field has bricks on distinct cells and power-ups on the field |
| GameLogic.InitialPowerUpsOnField | src/utils/gameLogic.js:178-208 | initial power-ups are never above the first row |
| GameLogic.MovedGameOverRow | src/components/Game.js:212-216 | after clean-up and the move, the game is over exactly when a live brick stood in row 19 or below |
| GameLogic.LivePlaced | src/utils/gameLogic.js:350-352 | live bricks come from the field, are not destroyed, and keep their cells |
| GameLogic.MovedReachesBottom | src/utils/gameLogic.js:133-153 | among live bricks, moving down reaches the bottom line exactly when one was in row 19 or below |
| GameLogic.LiveMovedLayout | src/components/Game.js:212-213 | the moved live bricks are on distinct cells, none in the top row |
| GameLogic.NewTopRowLayout | src/components/Game.js:223-226 | after the power-ups move, the new row always has seven bricks on distinct top-row cells |
| GameLogic.NextPowerUpsOnField | src/components/Game.js:223-233 | the moved and the spawned power-ups are all on the field |
| GameComponent.AfterWalls | src/components/Game.js:104-124 | the wall checks of one ball; their meaning is `AfterWallsMeaning` |
| GameComponent.AfterWallsMeaning | src/components/Game.js:104-124 | a ball that reaches the floor lands on the launch line; one that runs into a side wall or the ceiling leaves it, moving away at the same speed |
| GameComponent.FirstHitFrom | src/components/Game.js:129-153 | the first live brick, from index k on, that the swept test hits, with that test's result |
| GameComponent.Damage | src/components/Game.js:143-150 | a hit costs one health, destroys the brick at zero, and recolours a survivor |
| GameComponent.BrickPass | src/components/Game.js:127-153 | the brick pass of one ball; its meaning is `BrickPassDamagesOne`, and `BrickLoop` computes it |
| GameComponent.BrickPassDamagesOne | src/components/Game.js:127-153 | the brick pass changes at most one brick, a live one the swept test reports, which it damages; when some live brick is hit, the first such brick is damaged; when none is, ball and bricks are unchanged |
| GameComponent.CollectPowerUps | src/components/Game.js:155-163 | a power-up is collected now or before exactly when the test passes or it was already collected; positions are unchanged |
| GameComponent.CountPicks | src/components/Game.js:159 | no ball is earned exactly when no uncollected power-up is picked up |
| GameComponent.BrickLoop | src/components/Game.js:129-153 | the map loop with its stop flag gives the brick pass |
| GameComponent.PowerUpLoop | src/components/Game.js:155-163 | the map loop gives the collected power-ups and the number of balls earned |
| GameComponent.StepBall | src/components/Game.js:95-168 | one ball's step; its meaning is `StepBallKeepsLayout`, and `StepOneBall` computes it |
| GameComponent.StepOneBall | src/components/Game.js:95-168 | one ball's move, walls, bricks and power-ups |
| GameComponent.StepBalls | src/components/Game.js:94-169 | every ball gets a step, in order |
| GameComponent.StepAll | src/components/Game.js:94-169 | the loop over the balls gives the frame and keeps the field laid out |
| GameComponent.StepBallKeepsLayout | src/components/Game.js:95-168 | a step moves no brick and no power-up and earns no negative count; a landed ball passes unchanged |
| GameComponent.StepBallsKeepsLayout | src/components/Game.js:94-169 | a whole frame moves no brick and no power-up |
| GameComponent.SameLayoutKeepsCells | src/components/Game.js:127-153 | damage keeps bricks on distinct grid cells |
| GameComponent.EndOfRound | src/components/Game.js:210-236 | the end-of-round field for a given spawn chance; its meaning is the rows below |
| GameComponent.AdvanceField | src/components/Game.js:210-236 | for every spawn chance, the end-of-round field update gives the specified outcome and keeps the field laid out |
| GameComponent.GameOverWhenRow19 | src/components/Game.js:212-220 | the round ends the game exactly when a live brick stood in row 19 or below |
| GameComponent.NextRoundLayout | src/components/Game.js:210-236 | for every spawn chance, a continuing field has seven new bricks in row 0 ahead of the moved live ones, all on distinct cells, and power-ups on the field |
| GameComponent.AsWrittenRoundAddsNoPowerUps | src/components/Game.js:223-233 | with the spawn chance undefined, as the configuration stands, a continuing round's power-ups are exactly the old ones moved down |
| GameComponent.CorrectedRoundSpawnsInTopRow | src/components/Game.js:223-233 | with the intended 4% chance, a continuing round keeps the moved power-ups first and in order, and adds only top-row power-ups, none in a column of a new brick |
| GameComponent.FirstField | src/components/Game.js:67-69 | the first field as specified, laid out |
| GameComponent.Game.constructor | src/components/Game.js:35-80 | the initial state: ready, round 1, one ball, the first field, and the launch point at the centre |
| GameComponent.Game.InitializeGame | src/components/Game.js:67-80 | a restart resets the round, the ball counts, the field, the balls, the launch point and the end lock |
| GameComponent.Game.Restart | src/components/Game.js:69-79 | the reset assignments, given a laid-out field |
| GameComponent.Game.MouseMove | src/components/Game.js:257-268 | ready or aiming: the aim is recorded and the state becomes aiming; otherwise nothing changes |
| GameComponent.Game.Click | src/components/Game.js:271-301 | when aiming, one launch per ball is queued at the launch point with the given velocity, the state becomes shooting and the aim is cleared; otherwise nothing changes |
| GameComponent.Game.LaunchNext | src/components/Game.js:293-296 | the next queued ball joins the balls |
| GameComponent.Game.Tick | src/components/Game.js:83-185 | outside shooting nothing moves; while shooting the balls and field become the frame's, the earned balls are added, and once all have landed the end is scheduled exactly once |
| GameComponent.Game.CommitFrame | src/components/Game.js:94-180 | stores the frame and arms the end lock once every ball has landed |
| GameComponent.Game.EndRound | src/components/Game.js:201-254 | for the given spawn chance, the launch point moves to the x of the last ball, in launch order, strictly inside the canvas (the centre if none); either the game is over with the moved bricks kept, or the next round starts with the earned ball count, no balls, and the ready timer armed |
| GameComponent.Game.CommitRoundEnd | src/components/Game.js:216-250 | the state updates for either outcome of the round |
| GameComponent.Game.CommitGameOver | src/components/Game.js:216-220 | game over keeps the round, the balls and the power-ups |
| GameComponent.Game.CommitNextRound | src/components/Game.js:232-250 | the next round: round + 1, ball count from the earned count, no balls |
| GameComponent.Game.ReturnToReady | src/components/Game.js:250-253 | the state returns to ready and the end lock is released |
| Ranking.Compare | src/utils/leaderboard.js:35-40 | the sort comparator; its meaning is `AheadMeaning` |
| Ranking.AheadMeaning | src/utils/leaderboard.js:35-40 | the comparator ranks by round, higher first, then by ball count; it ties exactly entries with equal round and ball count |
| Ranking.Outranked | src/utils/leaderboard.js:35-40 | the number of entries a score outranks is at most the list length |
| Ranking.Insert | src/utils/leaderboard.js:35-40 | one insertion step of the sort, adding one entry; the rows below state where it goes |
| Ranking.InsertPlace | src/utils/leaderboard.js:32-40 | inserting into a ranked list puts the entry behind every entry it does not outrank and ahead of the rest |
| Ranking.InsertSorted | src/utils/leaderboard.js:35-40 | insertion keeps the list ranked |
| Ranking.InsertPermutes | src/utils/leaderboard.js:35-40 | insertion adds exactly the entry |
| Ranking.InsertTies | src/utils/leaderboard.js:35-40 | insertion keeps the order among tied entries |
| Ranking.SortByRank | src/utils/leaderboard.js:35-40 | the sort keeps the length; the rows below state that it ranks, permutes and is stable |
| Ranking.SortSorted | src/utils/leaderboard.js:35-40 | the sort yields a ranked list |
| Ranking.SortPermutes | src/utils/leaderboard.js:35-40 | the sort is a permutation |
| Ranking.SortStable | src/utils/leaderboard.js:35-40 | tied entries keep their original order (a stable sort) |
| Ranking.StableSortUnique | src/utils/leaderboard.js:35-40 | two ranked lists with the same tied entries in the same order are equal |
| Ranking.IsTheStableSort | src/utils/leaderboard.js:35-40 | any stable ranked rearrangement of the list is the sort's result |
| Ranking.TopScores | src/utils/leaderboard.js:32-43 | at most ten entries, ranked, drawn from the old scores and the new entry |
| Ranking.NewEntryPlace | src/utils/leaderboard.js:32-40 | the new entry goes behind the old entries it does not outrank, ties included; the rest keep their ranking |
| Ranking.NewEntryKept | src/utils/leaderboard.js:26-43 | a new entry ranked within the first ten is kept with each submitted field, its id and its date; otherwise the old first ten stay |
| Ranking.Load | src/utils/leaderboard.js:8-16 | a saved list reads back as saved; nothing stored, or text that does not parse, reads as an empty list |
| Ranking.Leaderboard.GetScores | src/utils/leaderboard.js:8-16 | `getScores` reads the stored value through `Load` |
| Ranking.Leaderboard.constructor | src/utils/leaderboard.js:1 | the leaderboard starts from what storage holds |
| Ranking.Leaderboard.AddScore | src/utils/leaderboard.js:23-51 | a write that succeeds saves and returns the top ten with the new entry; a failed write changes nothing and returns what storage holds; a later read gives the returned list |
| Ranking.TieGoesBehind | src/utils/leaderboard.js:35-43 | a score tied with a saved one is placed behind it |
| Ranking.LastOfElevenDropped | src/utils/leaderboard.js:43 | an eleventh score that ranks last is dropped |

## Left out

- `Math.sqrt`, `Math.atan2` and `Math.random` are parameters. The swept corner test assumes only that `sqrt` squares back on non-negative input. A random draw is any real in [0, 1).
- Floating point is modelled with exact reals: no rounding, no NaN, no infinities. `lineLength * lineLength` in the power-up test is the exact squared length.
- `calculateLaunchVelocity` (src/utils/gameLogic.js:282-293) and the click's normalisation to the chosen speed (src/components/Game.js:279-288) are left out. `Click` takes the velocity (vx, vy) as input, so the speed selector `ballSpeed` is not modelled either.
- `requestAnimationFrame` and `performance.now()` are left out: `Tick` takes the frame time dt as input.
- Timers are not modelled as timers. The host calls `LaunchNext`, `EndRound` and `ReturnToReady` when the timers fire. `Click` queues the launches in order, and `Restart` does not cancel pending timers, just as the source does not.
- React's state updaters are treated as running one after the other, in the order the handlers call them. Re-rendering and batching are not modelled.
- The ids and dates from `Date.now()` and `new Date()` are string inputs. `createBall` always sets radius 10 in the source, so the model has no radius field. Colours are palette indices, not colour strings.
- The initial power-up positions are shuffled in the source with `sort(() => 0.5 - Math.random())`. The model shuffles them with Fisher–Yates driven by the draws. Both give a permutation, but the two give different probabilities to the outcomes.
- `generateTopRowPowerUps` uses one draw per free column. The model gives every column its own draw, used only when the column is free.
- The unused `existingBricks` parameter of `generateTopRowBricks` is not modelled.
- `handleBallBounce` changes the ball object in place, but the caller passes a fresh copy, so the model treats it as a function returning the bounced ball.
- Ranking.Leaderboard.AddScore: a stored value that parses to something other than an array is read as `Unparsable`, an empty list, so the model saves `[entry]`. In the source, `getScores` returns that value as it is (src/utils/leaderboard.js:11); `push` in `addScore` then throws, and the catch leaves storage unchanged and returns that same value (src/utils/leaderboard.js:32, 47-49).
- An exception from `localStorage.getItem` is not modelled; only a failed write is (`writeFails`).
- `push`, `sort` and `slice` in `addScore` act on a local array, so they are modelled on sequences. The built-in sort is a library call, modelled by the stable insertion sort `SortByRank`. `IsTheStableSort` shows that any stable sort gives the same list.
- Collision.CornerCandidate: the model does not prove the contact-point property that a reported corner hit has the ball circle touching the corner. The model states it on the quadratic instead (`CircleLineRootOnCircle`): the returned time puts the ball centre on the circle around the corner.
- For the swept test of a ball moving up from (80, 95) to (80, 75) into the brick at (50, 50), the code reports a BOTTOM side hit (the ball moves up into the brick's bottom face). The model follows the code (`Collision.SweptHitFromBelow`); calling this a TOP collision would contradict `detectContinuousCollision`.
- The game component's own rendering, the speed buttons, the leaderboard view and the name-entry dialog are not modelled.
- GameComponent.Game.EndRound: the spawn chance is an input of the method rather than a fixed constant, so one model covers both the configuration as written (`Undefined`) and the intended one (`Num(SpawnChance)`).
- Some members have no function of their own in the source: `StepAll`, `AdvanceField`, `FirstField`, `Restart` and the `Commit*` methods. Each models a part of a handler, cited in its row, and splits the handler's work into smaller parts.

## Findings

| source | as written | input that shows it | evidently intended | confidence | as-written member | corrected member |
|---|---|---|---|---|---|---|
| src/utils/gameLogic.js:264 | `Math.random() < GAME_CONFIG.POWERUP.SPAWN_CHANCE`, but `GAME_CONFIG.POWERUP` (src/utils/constants.js:50-54) has no `SPAWN_CHANCE`. The comparison with `undefined` is always false, so no power-up ever spawns in the new top row. | any round end that continues the game, with any draws, e.g. all draws 0.0 and seven free columns: no new power-ups | a 4% chance per free column, as the comment states | not executed | GameLogic.TopRowPowerUpsAsWrittenEmpty | GameLogic.TopRowPowerUpsSpawn |

The spawn chance is a parameter of `GameComponent.EndOfRound`, `GameComponent.AdvanceField` and `GameComponent.Game.EndRound`, and `NextRoundLayout` holds for every chance. The program as written is the chance `Undefined`: by `GameComponent.AsWrittenRoundAddsNoPowerUps`, a continuing round's power-ups are then exactly the old ones moved down. The intended program is `Num(SpawnChance)`, with `SpawnChance` 0.04: `GameComponent.CorrectedRoundSpawnsInTopRow` and `GameLogic.TopRowPowerUpsSpawn` state what it spawns.
