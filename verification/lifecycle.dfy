/**
 The game-state machine: start, game over, reset, and the single "activate"
 input (space, arrow-up or a click) routed by the current state.
 */
module Lifecycle {
  import opened Entities
  import opened Dinosaur

  /** `startGame`: leave the start screen and begin playing. */
  function StartGame(w: World): (w': World)
    ensures w'.state == Playing
    ensures w' == w.(state := w'.state)
  {
    w.(state := Playing)
  }

  /** `gameOver`: stop the run and keep the better of the high score and the
      score just reached. */
  function EnterGameOver(w: World): (w': World)
    ensures w'.state == GameOver
    ensures w'.highScore >= w.highScore && w'.highScore >= w.score
    ensures w'.highScore == w.highScore || w'.highScore == w.score
    ensures w' == w.(state := w'.state, highScore := w'.highScore)
  {
    w.(state := GameOver, highScore := if w.score > w.highScore then w.score else w.highScore)
  }

  /** `resetGame`: back to the start screen with a fresh run; the high score,
      the canvas and the ground scroll are kept. */
  function ResetGame(w: World): (w': World)
    ensures w'.state == Start && w'.score == 0 && w'.speed == BaseSpeed
    ensures w'.obstacles == [] && w'.obstacleTimer == 0
    ensures w'.dino == Grounded(w.groundY)
    ensures w'.highScore == w.highScore
    ensures w'.canvasWidth == w.canvasWidth && w'.groundY == w.groundY && w'.groundX == w.groundX
  {
    w.(state := Start, score := 0, speed := BaseSpeed, obstacles := [], obstacleTimer := 0,
       dino := Grounded(w.groundY))
  }

  /** `handleJump`: start from the start screen, jump while playing on the
      ground, reset after a game over. An activation never ends a game and never
      touches the high score, and after a game over it is not a jump. */
  function HandleJump(w: World): (w': World)
    ensures w.state == Start ==> w' == w.(state := Playing)
    ensures w.state == Playing && !w.dino.isJumping ==>
      w' == w.(dino := w'.dino) && w'.dino.isJumping && w'.dino.jumpSpeed == JumpImpulse && w'.dino.y == w.dino.y
    ensures w.state == Playing && w.dino.isJumping ==> w' == w
    ensures w.state == GameOver ==> w'.state == Start && w' == ResetGame(w) && !w'.dino.isJumping
    ensures w'.state != GameOver && w'.highScore == w.highScore
  {
    if w.state == Start then StartGame(w)
    else if w.state == Playing && !w.dino.isJumping then w.(dino := Jump(w.dino))
    else if w.state == GameOver then ResetGame(w)
    else w
  }

  /** Two activations after a game over give a fresh run in progress that kept
      the high score. */
  lemma RestartGivesFreshRun(w: World)
    requires w.state == GameOver
    ensures var w' := HandleJump(HandleJump(w));
      && w'.state == Playing && w'.score == 0 && w'.speed == BaseSpeed
      && w'.obstacles == [] && w'.obstacleTimer == 0
      && w'.dino == Grounded(w.groundY) && w'.highScore == w.highScore
  {
  }
}
