/**
 The state of one `DinosaurGame`: the game-state machine's state, the world
 scalars (speed, score, high score, ground scroll), the dinosaur and the
 ordered list of obstacles. Every constant the simulation reads is named here.
 */
module Entities {
  import opened Geometry

  /** The three values of `gameState`. */
  datatype GameState = Start | Playing | GameOver

  // The dinosaur's fixed hitbox and physics constants.
  const DinoX: real := 50.0
  const DinoWidth: real := 40.0
  const DinoHeight: real := 50.0
  const Gravity: real := 1.2
  const JumpImpulse: real := -18.0
  /** Declared by the game but never read: the jump has no ceiling. */
  const MaxJumpHeight: real := 100.0

  // World constants.
  const GroundMargin: real := 40.0
  const BaseSpeed: real := 6.0
  const SpeedStep: real := 0.5
  const Milestone: nat := 100
  const DashPeriod: real := 24.0

  // Obstacle constants: one fixed cactus shape.
  const CactusWidth: real := 20.0
  const CactusHeight: real := 30.0
  const OffScreenBonus: nat := 10
  const MinObstacleDistance: real := 200.0
  const MaxObstacleDistance: real := 400.0

  /** The dinosaur's mutable part; x, width, height and gravity are constants. */
  datatype Dino = Dino(y: real, isJumping: bool, jumpSpeed: real)

  /** An obstacle; the game has a single kind, the cactus. */
  datatype Obstacle = Cactus(x: real, y: real, width: real, height: real)

  datatype World = World(
    state: GameState,
    speed: real,
    score: nat,
    highScore: nat,
    canvasWidth: real,
    groundY: real,
    groundX: real,
    dino: Dino,
    obstacles: seq<Obstacle>,
    obstacleTimer: nat)

  /** The y of the dinosaur's top edge when it stands on the ground. */
  function RestY(groundY: real): real
  {
    groundY - DinoHeight
  }

  /** The dinosaur standing still on the ground. */
  function Grounded(groundY: real): Dino
  {
    Dino(RestY(groundY), false, 0.0)
  }

  function DinoBox(d: Dino): Rect
  {
    Rect(DinoX, d.y, DinoWidth, DinoHeight)
  }

  function ObstacleBox(o: Obstacle): Rect
  {
    Rect(o.x, o.y, o.width, o.height)
  }

  /** The freshly constructed game on a canvas of the given size, with the
      high score read from storage. */
  function NewGame(canvasWidth: real, canvasHeight: real, storedHighScore: nat): (w: World)
    ensures w.state == Start && w.score == 0 && w.speed == BaseSpeed
    ensures w.highScore == storedHighScore && w.canvasWidth == canvasWidth
    ensures w.dino == Grounded(w.groundY) && w.groundY == canvasHeight - GroundMargin
    ensures w.obstacles == [] && w.obstacleTimer == 0 && w.groundX == 0.0
  {
    var groundY := canvasHeight - GroundMargin;
    World(Start, BaseSpeed, 0, storedHighScore, canvasWidth, groundY, 0.0,
          Grounded(groundY), [], 0)
  }
}
