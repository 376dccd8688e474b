/**
 One frame of the game (`update`), the invariant every reachable world keeps,
 and properties of whole sequences of frames and activations.
 */
module Game {
  import opened Geometry
  import opened Entities
  import opened Dinosaur
  import opened Obstacles
  import opened Scoring
  import opened Collision
  import opened Lifecycle

  /** `update` without the clouds: while playing, the dinosaur, the obstacles,
      the ground and the score advance in that order, and then collisions are
      checked; in any other state the game stands still. */
  function Update(w: World, random: real): (w': World)
    ensures w.state != Playing ==> w' == w
    ensures w.state == Playing ==>
      && (w'.state == Playing || w'.state == GameOver)
      && w'.dino == UpdateDinosaur(w.dino, w.groundY)
      && (w'.state == GameOver <==>
            exists i :: 0 <= i < |w'.obstacles| && Overlaps(DinoBox(w'.dino), ObstacleBox(w'.obstacles[i])))
      && w'.score > w.score
      && w'.highScore == (if w'.state == GameOver && w'.score > w.highScore then w'.score else w.highScore)
      && w.speed <= w'.speed <= w.speed + SpeedStep
    ensures w.state == Playing ==>
      var o := UpdateObstacles(w.(dino := UpdateDinosaur(w.dino, w.groundY)), random);
      && w'.obstacles == o.obstacles && w'.obstacleTimer == o.obstacleTimer
      && w'.groundX == UpdateGround(o).groundX
      && w'.score == o.score + 1
      && w'.speed == (if w'.score % Milestone == 0 then w.speed + SpeedStep else w.speed)
    ensures w'.canvasWidth == w.canvasWidth && w'.groundY == w.groundY
  {
    if w.state == Playing then
      var moved := w.(dino := UpdateDinosaur(w.dino, w.groundY));
      CheckCollisions(UpdateScore(UpdateGround(UpdateObstacles(moved, random))))
    else w
  }

  /** The values a run starts from. */
  predicate Fresh(w: World)
  {
    && w.score == 0 && w.speed == BaseSpeed
    && w.obstacles == [] && w.obstacleTimer == 0
    && w.dino == Grounded(w.groundY)
  }

  /** What holds of every world the game can reach: the speed never drops
      below its base, the ground offset stays within one dash period, the
      dinosaur is never below the ground and, when airborne, is somewhere on
      the arc of a jump from the ground, the obstacles form an ordered row of
      cacti left of the right edge, and the start screen always shows a fresh
      run. */
  predicate Inv(w: World)
  {
    && w.speed >= BaseSpeed
    && -DashPeriod < w.groundX <= 0.0
    && DinoOk(w.dino, w.groundY)
    && (w.dino.isJumping ==>
          exists k: nat :: k < AirFrames && w.dino == Fly(Jump(Grounded(w.groundY)), w.groundY, k))
    && CactusRow(w.obstacles, w.groundY)
    && (forall i :: 0 <= i < |w.obstacles| ==> w.obstacles[i].x < w.canvasWidth)
    && (w.state == Start ==> Fresh(w))
  }

  lemma InvNewGame(canvasWidth: real, canvasHeight: real, storedHighScore: nat)
    ensures Inv(NewGame(canvasWidth, canvasHeight, storedHighScore))
  {
  }

  /** A frame keeps the invariant. */
  lemma InvUpdate(w: World, random: real)
    requires Inv(w)
    ensures Inv(Update(w, random))
  {
    if w.state == Playing {
      var moved := w.(dino := UpdateDinosaur(w.dino, w.groundY));
      DinoOkPreserved(w.dino, w.groundY);
      ArcContinues(w.dino, w.groundY);
      UpdateObstaclesKeepsRow(moved, random);
      var o := UpdateObstacles(moved, random);
      GroundStaysInPeriod(o);
    }
  }

  /** An activation keeps the invariant. */
  lemma InvHandleJump(w: World)
    requires Inv(w)
    ensures Inv(HandleJump(w))
  {
    DinoOkPreserved(w.dino, w.groundY);
    if w.state == Playing && !w.dino.isJumping {
      assert w.dino == Grounded(w.groundY);
      assert HandleJump(w).dino == Fly(Jump(Grounded(w.groundY)), w.groundY, 0);
    }
  }

  /** A gravity step moves an airborne dinosaur one frame further along the
      arc of a jump from the ground, or lands it. */
  lemma ArcContinues(d: Dino, groundY: real)
    requires d.isJumping ==> exists k: nat :: k < AirFrames && d == Fly(Jump(Grounded(groundY)), groundY, k)
    ensures var d' := UpdateDinosaur(d, groundY);
      d'.isJumping ==> exists k: nat :: k < AirFrames && d' == Fly(Jump(Grounded(groundY)), groundY, k)
  {
    var d' := UpdateDinosaur(d, groundY);
    if d'.isJumping {
      var k: nat :| k < AirFrames && d == Fly(Jump(Grounded(groundY)), groundY, k);
      assert d' == Fly(Jump(Grounded(groundY)), groundY, k + 1);
      if k + 1 == AirFrames {
        JumpArc(groundY, k + 1);
        assert false;
      }
    }
  }

  /** In every valid world the dinosaur is between the ground and 126 above
      it. */
  lemma ReachableHeightBound(w: World)
    requires Inv(w)
    ensures RestY(w.groundY) - 126.0 <= w.dino.y <= RestY(w.groundY)
  {
    if w.dino.isJumping {
      var k: nat :| k < AirFrames && w.dino == Fly(Jump(Grounded(w.groundY)), w.groundY, k);
      JumpPeak(w.groundY, k);
    }
  }

  /** An input event: an activation, or a display frame together with the
      value `Math.random()` returns during it. */
  datatype Input = Activate | Frame(random: real)

  function Step(w: World, input: Input): World
  {
    match input
    case Activate => HandleJump(w)
    case Frame(r) => Update(w, r)
  }

  /** The world after a sequence of inputs. */
  function Run(w: World, inputs: seq<Input>): World
    decreases |inputs|
  {
    if inputs == [] then w else Run(Step(w, inputs[0]), inputs[1..])
  }

  /** Every world reachable from a valid one is valid. */
  lemma {:induction false} InvRun(w: World, inputs: seq<Input>)
    requires Inv(w)
    ensures Inv(Run(w, inputs))
    decreases |inputs|
  {
    if inputs != [] {
      match inputs[0] {
        case Activate => InvHandleJump(w);
        case Frame(r) => InvUpdate(w, r);
      }
      InvRun(Step(w, inputs[0]), inputs[1..]);
    }
  }

  /** Inputs never move the ground line. */
  lemma {:induction false} RunKeepsGround(w: World, inputs: seq<Input>)
    ensures Run(w, inputs).groundY == w.groundY
    decreases |inputs|
  {
    if inputs != [] {
      RunKeepsGround(Step(w, inputs[0]), inputs[1..]);
    }
  }

  /** Whatever the inputs, the dinosaur of a valid world stays between the
      ground and 126 above it. */
  lemma RunHeightBound(w: World, inputs: seq<Input>)
    requires Inv(w)
    ensures RestY(w.groundY) - 126.0 <= Run(w, inputs).dino.y <= RestY(w.groundY)
  {
    InvRun(w, inputs);
    RunKeepsGround(w, inputs);
    ReachableHeightBound(Run(w, inputs));
  }

  /** The scores with which the runs in a sequence of inputs ended, in order. */
  function GameOverScores(w: World, inputs: seq<Input>): seq<nat>
    decreases |inputs|
  {
    if inputs == [] then []
    else
      var next := Step(w, inputs[0]);
      (if w.state != GameOver && next.state == GameOver then [next.score] else [])
        + GameOverScores(next, inputs[1..])
  }

  /** The largest of `h` and the elements of `s`. */
  function MaxOf(h: nat, s: seq<nat>): (m: nat)
    ensures m >= h && forall i :: 0 <= i < |s| ==> m >= s[i]
    ensures m == h || exists i :: 0 <= i < |s| && m == s[i]
    decreases |s|
  {
    if s == [] then h
    else
      var m := MaxOf(if s[0] > h then s[0] else h, s[1..]);
      assert forall i :: 1 <= i < |s| ==> s[i] == s[1..][i - 1];
      m
  }

  /** A step changes the high score only when it ends a run, and then keeps
      the better of the old high score and the final score. */
  lemma StepHighScore(w: World, input: Input)
    ensures var next := Step(w, input);
      next.highScore
        == if w.state != GameOver && next.state == GameOver && next.score > w.highScore
           then next.score else w.highScore
  {
  }

  /** The high score is always the best of the stored one and every score a
      run ended with. */
  lemma {:induction false} HighScoreIsBestFinalScore(w: World, inputs: seq<Input>)
    ensures Run(w, inputs).highScore == MaxOf(w.highScore, GameOverScores(w, inputs))
    decreases |inputs|
  {
    if inputs != [] {
      var next := Step(w, inputs[0]);
      HighScoreIsBestFinalScore(next, inputs[1..]);
      StepHighScore(w, inputs[0]);
      var rest := GameOverScores(next, inputs[1..]);
      if w.state != GameOver && next.state == GameOver {
        assert ([next.score] + rest)[1..] == rest;
      } else {
        assert [] + rest == rest;
      }
    }
  }

  /** A run of the game that is playing, `s` frames in, with nothing spawned,
      no jump and no bonus. */
  predicate Quiet(w: World, s: nat)
  {
    && w.state == Playing && w.score == s && w.obstacleTimer == s
    && w.obstacles == [] && w.dino == Grounded(w.groundY)
    && w.speed == if s < Milestone then BaseSpeed else BaseSpeed + SpeedStep
  }

  /** Only display frames, each with a genuine `Math.random()` value. */
  predicate QuietInputs(inputs: seq<Input>)
  {
    forall i :: 0 <= i < |inputs| ==> inputs[i].Frame? && 0.0 <= inputs[i].random < 1.0
  }

  lemma QuietFrame(w: World, s: nat, random: real)
    requires Quiet(w, s) && s < Milestone && 0.0 <= random < 1.0
    ensures Quiet(Update(w, random), s + 1)
  {
    SpawnGap(s, random);
  }

  lemma {:induction false} QuietRun(w: World, s: nat, inputs: seq<Input>)
    requires Quiet(w, s) && s + |inputs| <= Milestone && QuietInputs(inputs)
    ensures Quiet(Run(w, inputs), s + |inputs|)
    decreases |inputs|
  {
    if inputs != [] {
      QuietFrame(w, s, inputs[0].random);
      assert QuietInputs(inputs[1..]) by {
        assert forall i :: 0 <= i < |inputs| - 1 ==> inputs[1..][i] == inputs[i + 1];
      }
      QuietRun(Step(w, inputs[0]), s + 1, inputs[1..]);
    }
  }

  /** Starting a fresh run and letting 100 frames pass without an obstacle
      reaches score 100 at speed 6.5, still playing. */
  lemma HundredFrames(w: World, inputs: seq<Input>)
    requires w.state == Start && Fresh(w)
    requires |inputs| == 100 && QuietInputs(inputs)
    ensures var w' := Run(HandleJump(w), inputs);
      w'.state == Playing && w'.score == 100 && w'.speed == 6.5
  {
    QuietRun(HandleJump(w), 0, inputs);
  }

  /** Frames and activations whose `Math.random()` values are genuine. */
  predicate GenuineRandoms(inputs: seq<Input>)
  {
    forall i :: 0 <= i < |inputs| ==> inputs[i].Frame? ==> 0.0 <= inputs[i].random < 1.0
  }

  /** Before the first cactus of a run appears, the list is empty and the spawn
      timer has counted exactly the frames, which are the score; the first
      spawn can only happen once the score has passed 200. */
  predicate BeforeFirstSpawn(w: World)
  {
    (w.obstacles == [] && w.obstacleTimer == w.score) || w.score > 200
  }

  /** A frame or activation with a genuine random value keeps
      `BeforeFirstSpawn`. */
  lemma BeforeFirstSpawnStep(w: World, input: Input)
    requires BeforeFirstSpawn(w)
    requires input.Frame? ==> 0.0 <= input.random < 1.0
    ensures BeforeFirstSpawn(Step(w, input))
  {
  }

  /** Every world a run reaches from its construction satisfies
      `BeforeFirstSpawn`. */
  lemma {:induction false} BeforeFirstSpawnRun(w: World, inputs: seq<Input>)
    requires BeforeFirstSpawn(w) && GenuineRandoms(inputs)
    ensures BeforeFirstSpawn(Run(w, inputs))
    decreases |inputs|
  {
    if inputs != [] {
      BeforeFirstSpawnStep(w, inputs[0]);
      assert GenuineRandoms(inputs[1..]) by {
        assert forall i :: 0 <= i < |inputs| - 1 ==> inputs[1..][i] == inputs[i + 1];
      }
      BeforeFirstSpawnRun(Step(w, inputs[0]), inputs[1..]);
    }
  }

  /** In any run of the game, a frame that starts below score 200 adds exactly
      one point and no bonus, so the milestones 100 and 200 are always reached
      by the per-frame point and always raise the speed. */
  lemma EarlyMilestonesAreReached(canvasWidth: real, canvasHeight: real, storedHighScore: nat,
                                  inputs: seq<Input>, random: real)
    requires GenuineRandoms(inputs) && 0.0 <= random < 1.0
    ensures var w := Run(NewGame(canvasWidth, canvasHeight, storedHighScore), inputs);
      var w' := Update(w, random);
      w.state == Playing && w.score < 2 * Milestone ==>
        && w'.score == w.score + 1
        && w'.speed == if w'.score % Milestone == 0 then w.speed + SpeedStep else w.speed
  {
    var w := Run(NewGame(canvasWidth, canvasHeight, storedHighScore), inputs);
    BeforeFirstSpawnRun(NewGame(canvasWidth, canvasHeight, storedHighScore), inputs);
    if w.state == Playing && w.score < 2 * Milestone {
      SpawnGap(w.obstacleTimer, random);
    }
  }

  /** The speed only rises when the score is a multiple of 100 right after the
      per-frame point, so from the milestone 300 on a bonus can skip one. Here
      the cactus spawned at score 203 and has scrolled for 87 frames at speed 7;
      this frame removes it, the bonus takes the score from 290 to 300 and the
      per-frame point to 301, and the speed stays 7. */
  lemma BonusCanSkipMilestone()
    ensures var w := World(Playing, 7.0, 290, 0, 600.0, 260.0, 0.0, Grounded(260.0),
                           [Cactus(-16.0, 230.0, CactusWidth, CactusHeight)], 87);
      var w' := Update(w, 0.5);
      && Inv(w) && BeforeFirstSpawn(w)
      && w.score < 3 * Milestone < w'.score && w'.speed == w.speed && w'.state == Playing
  {
  }
}
