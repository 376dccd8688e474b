# Dinosaur runner: a Dafny model of the game simulation

This project models the state logic of `DinosaurGame` in `game.js`, an
endless side-scroller. A dinosaur jumps over cacti that scroll in from the
right. The world speeds up as the score grows. A collision ends the run.

The model is functional. A `World` record holds the game state (`Start`,
`Playing`, `GameOver`), the speed, score and high score, the ground scroll
offset, the dinosaur and the ordered list of obstacles. Each method of the
class becomes a pure function: the world-level ones map `World` to `World`,
`Jump` and `UpdateDinosaur` map `Dino` to `Dino`, and `CreateObstacle` returns
an `Obstacle`. Positions and speeds
are exact `real`s, so the constants 1.2 and 0.5 are represented exactly.

Files, one module each:

- `geometry.dfy` (`Geometry`): rectangles and the strict AABB overlap test.
- `entities.dfy` (`Entities`): the records, every constant, the initial world.
- `dinosaur.dfy` (`Dinosaur`): `jump` and `updateDinosaur`, plus the closed form of a jump.
- `obstacles.dfy` (`Obstacles`): the spawn timer, `createObstacle` and `updateObstacles`. Its obstacle pass (shift every obstacle, cull those off screen) is modelled twice: as the recursive function `Sweep`, and as the method `SweepInPlace`, which walks the list backwards and splices items out as game.js does.
- `scoring.dfy` (`Scoring`): `updateScore` and `updateGround`.
- `lifecycle.dfy` (`Lifecycle`): `startGame`, `gameOver`, `resetGame` and `handleJump`.
- `collision.dfy` (`Collision`): `checkCollisions`.
- `game.dfy` (`Game`): `update`, the invariant of reachable worlds, input sequences and the high-score property.

Inputs that the source takes from outside become parameters:

- The value of `Math.random()` in the spawn test is the `random` argument of `UpdateObstacles` and `Update`. Lemmas that need it ask for `0 <= random < 1`.
- The canvas size and the stored high score are arguments of `NewGame`.

## Model

| member | source | states |
|---|---|---|
| Geometry.Overlaps | game.js:163-166 | the four strict comparisons of `checkCollisions`, dinosaur first (a definition; its properties are the lemmas below) |
| Geometry.OverlapsIffSharedInteriorPoint | game.js:163-166 | for rectangles of positive size, the four strict comparisons hold exactly when some point lies strictly inside both rectangles |
| Geometry.OverlapsSymmetric | game.js:163-166 | the collision test gives the same answer with its two rectangles swapped |
| Geometry.TouchingRectsDoNotOverlap | game.js:163-166 | rectangles that share only an edge do not collide |
| Geometry.OverlapsSelfIffPositiveArea | game.js:163-166 | a rectangle collides with itself exactly when its width and height are positive |
| Entities.NewGame | game.js:10-35 | the constructed game is on the start screen, with score 0, speed 6, no obstacles, timer 0, the stored high score, the given canvas width, and the dinosaur standing on the ground 40 above the canvas bottom |
| Dinosaur.Jump | game.js:80-85 | a grounded dinosaur becomes airborne with velocity -18 at the same height; an airborne one is unchanged |
| Dinosaur.JumpIdempotent | game.js:80-85 | jumping twice is the same as jumping once |
| Dinosaur.UpdateDinosaur | game.js:87-99 | a grounded dinosaur is unchanged; an airborne one whose new height reaches or passes resting height is snapped onto the ground with jumping cleared and velocity 0; one whose new height stays above resting height keeps jumping with velocity increased by gravity and height moved by the new velocity |
| Dinosaur.DinoOkPreserved | game.js:80-99 | jump and gravity step keep the dinosaur at or above the ground, and when not jumping exactly on it with velocity 0 |
| Dinosaur.JumpArc | game.js:80-99 | k frames into a jump from the ground (k < 29) the dinosaur is 0.6·k·(29−k) above ground with velocity −18+1.2·k; on frame 29 it is back on the ground with jumping cleared and velocity exactly 0 |
| Dinosaur.StaysGrounded | game.js:87-99 | from frame 29 on, further frames leave the landed dinosaur on the ground |
| Dinosaur.JumpPeak | game.js:87-99 | a jump rises at most 126 above resting height and reaches 126 on frame 15, more than the unused `maxJumpHeight` of 100 |
| Obstacles.SpawnThreshold | game.js:115 | a random value in [0, 1) gives a threshold in [200, 400) |
| Obstacles.ShouldSpawn | game.js:114-115 | the incremented timer strictly exceeds the drawn threshold (a definition; `SpawnGap` states its bounds) |
| Obstacles.CreateObstacle | game.js:101-110 | the new cactus is 20 wide and 30 high, stands on the ground and has its left edge at the canvas width |
| Obstacles.SpawnStep | game.js:113-118 | the timer ticks; exactly when the ticked timer exceeds the threshold one cactus is appended and the timer becomes 0; nothing else changes |
| Obstacles.SpawnGap | game.js:114-118 | with a genuine random value a spawn needs the ticked timer above 200, and over exact reals a ticked timer of 400 or more always spawns |
| Obstacles.Advance | game.js:122 | an obstacle moved left by the current speed, everything else unchanged (a definition) |
| Obstacles.OffScreen | game.js:125 | the obstacle's right edge is strictly left of x = 0 (a definition) |
| Obstacles.Sweep | game.js:120-129 | survivors plus removed obstacles account for the whole list, and no survivor is off screen |
| Obstacles.SweepInPlace | game.js:121-129 | the backwards shift-and-splice loop leaves exactly the swept survivors, and its bonus is 10 per removed obstacle |
| Obstacles.SweepAppend | game.js:121-129 | sweeping a concatenation concatenates the survivors in order and adds the removals, so relative order is kept |
| Obstacles.SweepMembers | game.js:121-129 | an obstacle survives exactly when it is some original obstacle shifted left by the speed and still on screen |
| Obstacles.SweepExtremes | game.js:121-129 | if no shifted obstacle is off screen, all survive shifted and in order with nothing removed; if all are off screen, none survives and all are counted |
| Obstacles.SweepKeepsRow | game.js:120-129 | sweeping keeps a row of ground cacti in strictly increasing x and moves its right bound left by the speed |
| Obstacles.UpdateObstacles | game.js:112-130 | the timer is 0 exactly when a spawn happened and otherwise ticks by one; at most one obstacle is added; no obstacle left is off screen; the score rises by 10 per obstacle removed; nothing else in the world changes |
| Obstacles.UpdateObstaclesKeepsRow | game.js:101-129 | at positive speed, obstacles stay ground cacti in creation order with strictly increasing x, all left of the canvas width |
| Obstacles.NewCactusIsShifted | game.js:112-129 | a cactus spawned this frame is the last obstacle and already sits at canvas width minus the speed |
| Obstacles.UpdateObstaclesSurvivors | game.js:112-129 | the list after the frame is the swept old list, followed by the swept new cactus when one spawned |
| Scoring.UpdateScore | game.js:198-208 | while playing the score rises by exactly 1 and the speed by 0.5 exactly when the new score is a multiple of 100; speed never falls and rises by at most 0.5; in other states nothing changes |
| Scoring.SpeedFollowsMilestones | game.js:198-208 | over n consecutive updateScore calls with no bonus in between, the speed rises by 0.5 for each multiple of 100 the score passes through |
| Scoring.UpdateGround | game.js:154-159 | the ground offset moves left by exactly the speed when that stays above −24, and is reset to 0 otherwise; nothing else changes |
| Scoring.GroundStaysInPeriod | game.js:154-159 | at positive speed an offset in (−24, 0] stays in (−24, 0] |
| Lifecycle.StartGame | game.js:75-78 | the game is playing and nothing else changes |
| Lifecycle.EnterGameOver | game.js:173-183 | the state is game over and the high score becomes the larger of the old high score and the score; nothing else changes |
| Lifecycle.ResetGame | game.js:185-196 | back on the start screen with score 0, speed 6, no obstacles, timer 0 and a grounded resting dinosaur; high score, canvas and ground offset are kept |
| Lifecycle.HandleJump | game.js:65-73 | start goes to playing; playing on the ground starts a jump; playing in the air does nothing; game over resets to start and is never a jump; an activation never ends a run or changes the high score |
| Lifecycle.RestartGivesFreshRun | game.js:185-196 | two activations after a game over give a run in progress with score 0, speed 6, no obstacles and the old high score |
| Collision.AnyCollision | game.js:161-171 | the first-hit loop reports a hit exactly when some obstacle overlaps the dinosaur |
| Collision.CheckCollisions | game.js:161-171 | any overlap leads to game over with the high score updated; with no overlap the world is unchanged |
| Collision.EdgeContactIsHarmless | game.js:161-171 | a cactus touching the dinosaur only at its right or bottom edge does not end the game |
| Game.Update | game.js:284-294 | outside playing nothing changes; while playing the result is playing or game over, the dinosaur took one gravity step, the game is over exactly when the final dinosaur overlaps a final obstacle, the obstacles and timer are those of `updateObstacles` after the gravity step, the ground offset is that of `updateGround` on the result, the score is the bonus-adjusted score plus one, the speed rises by 0.5 exactly when that final score is a multiple of 100, and the high score changed only at game over |
| Game.InvNewGame | game.js:10-35 | the initial world satisfies the invariant of reachable worlds |
| Game.InvUpdate | game.js:284-294 | a frame keeps the invariant: speed at least 6, ground offset in (−24, 0], dinosaur not below ground and, when airborne, on the arc of a jump from the ground, ordered cactus row left of the right edge, fresh values on the start screen |
| Game.ArcContinues | game.js:87-99 | a gravity step takes an airborne dinosaur on the arc of a jump from the ground one frame further along that arc, or lands it |
| Game.ReachableHeightBound | game.js:80-99 | in every valid world the dinosaur is at most 126 above resting height and never below it |
| Game.InvHandleJump | game.js:65-73 | an activation keeps the same invariant |
| Game.InvRun | game.js:284-294 | every world reachable from a valid one by frames and activations is valid |
| Game.RunKeepsGround | game.js:284-294 | no sequence of frames and activations moves the ground line |
| Game.RunHeightBound | game.js:65-99 | for any sequence of frames and activations from a valid world, the dinosaur stays between resting height and 126 above it |
| Game.StepHighScore | game.js:173-183 | a frame or activation changes the high score only when it ends a run, and then to the larger of the old high score and the final score |
| Game.HighScoreIsBestFinalScore | game.js:173-183 | after any inputs, the high score is the maximum of the stored high score and the scores at every game over |
| Game.QuietFrame | game.js:284-294 | a frame of an obstacle-free run below score 100 adds one point, spawns nothing and keeps the dinosaur grounded |
| Game.QuietRun | game.js:284-294 | a sequence of such frames keeps the run obstacle-free, with score and timer equal to the frame count |
| Game.HundredFrames | game.js:198-208 | starting a fresh run and letting 100 frames pass gives score 100 at speed 6.5, still playing |
| Game.BeforeFirstSpawnStep | game.js:112-118 | with a genuine random value, a frame or activation keeps this: either the run has no obstacle and its spawn timer equals its score, or the score is above 200 |
| Game.BeforeFirstSpawnRun | game.js:112-118 | every world reached by frames and activations with genuine random values keeps the same property |
| Game.EarlyMilestonesAreReached | game.js:112-208 | in any run from a newly constructed game, a frame that starts below score 200 adds exactly one point, so the speed rises by 0.5 exactly when it lands on 100 or 200 |
| Game.BonusCanSkipMilestone | game.js:198-208 | in a valid world at score 290 and speed 7, with its one cactus spawned at score 203, the removal bonus takes the score past 300 to 301 in one frame without any speed-up |

## Notes on game.js's behaviour

- `maxJumpHeight` (game.js:30) is never read. A jump rises 126 above resting height (`JumpPeak`), and no sequence of inputs takes the dinosaur higher (`RunHeightBound`).
- The speed rises only when the score is a multiple of 100 right after the +1 step (game.js:204). No cactus exists before the spawn timer passes 200, and until then the timer equals the score, so the milestones 100 and 200 are always hit by the +1 step (`EarlyMilestonesAreReached`). From the milestone 300 on, a +10 removal bonus can skip a multiple of 100 with no speed-up (`BonusCanSkipMilestone`).
- The overlap test (game.js:163-166) is strict. A rectangle therefore overlaps itself exactly when it has positive width and height (`OverlapsSelfIffPositiveArea`), and rectangles that only touch do not overlap (`TouchingRectsDoNotOverlap`).
- The ground offset is reset to 0 rather than shifted by one dash period (game.js:156-157). At speeds that do not divide 24 the dash pattern therefore jumps.

## Left out

- Rendering: `draw*`, `drawDinosaur`'s clock-based leg animation, and `gameLoop`'s `requestAnimationFrame` scheduling. They are presentation only.
- Clouds (`createClouds`, `updateClouds`). They are cosmetic, driven by `Math.random()`, and never read by game logic.
- DOM effects: overlay class toggles, score text and `updateHighScore`'s `padStart` formatting, and event-listener wiring. The activate input is the `HandleJump` function.
- `localStorage` reads and writes. The stored high score is a `nat` argument of `NewGame`. The source may hold it as a string that JavaScript coerces in `score > highScore`; the model does not represent that.
- Canvas resizing. The canvas width and ground line are fixed for the lifetime of a `World`.
- Floating point. JavaScript numbers are IEEE doubles. Speeds 6 + 0.5·k, ground offsets and obstacle positions stay exact binary fractions there, but gravity 1.2 is not representable and its rounding accumulates in the dinosaur's velocity and height. The model uses exact reals. For example, `Dinosaur.JumpArc`'s landing on exactly frame 29 may fall one frame later under doubles. The spawn threshold `200 + r·200` rounds too: for the largest double below 1 it is exactly 400.0.
- SpawnGap: its "400 or more always spawns" holds over exact reals only. In doubles the threshold can round up to exactly 400, and then a ticked timer of 401 is needed.
- The spawn randomness itself. `Math.random()` is a parameter, so the model states no distribution of spawn gaps, only their bounds (`SpawnGap`).
- How many frames an obstacle takes to cross the screen. The first cactus appears only after score 200, at speed 7 or more. At speed 7 a crossing of a 600-wide canvas takes ceil(620 / 7) = 89 frames, and a multiple of 100 can fall within them, so the speed can change on the way and no closed form holds. Each frame's shift and removal is stated by `Sweep`.
