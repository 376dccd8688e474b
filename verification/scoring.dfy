/**
 The per-frame score and difficulty ramp, and the scrolling ground pattern.
 */
module Scoring {
  import opened Entities

  /** `updateScore`: while playing, one point per frame, and the speed rises
      by 0.5 whenever the new score is a multiple of 100. */
  function UpdateScore(w: World): (w': World)
    ensures w.state != Playing ==> w' == w
    ensures w.state == Playing ==> w'.score == w.score + 1
    ensures w.state == Playing ==>
      w'.speed == if w'.score % Milestone == 0 then w.speed + SpeedStep else w.speed
    ensures w.speed <= w'.speed <= w.speed + SpeedStep
    ensures w' == w.(score := w'.score, speed := w'.speed)
  {
    if w.state == Playing then
      var score := w.score + 1;
      w.(score := score, speed := if score % Milestone == 0 then w.speed + SpeedStep else w.speed)
    else w
  }

  /** `n` consecutive score updates with nothing else in between. */
  function ScoreFrames(w: World, n: nat): World
  {
    if n == 0 then w else UpdateScore(ScoreFrames(w, n - 1))
  }

  /** Over `n` consecutive score updates with no bonus in between, the speed
      has risen by 0.5 for every multiple of 100 the score passed through. */
  lemma {:induction false} SpeedFollowsMilestones(w: World, n: nat)
    requires w.state == Playing
    ensures ScoreFrames(w, n).state == Playing
    ensures ScoreFrames(w, n).score == w.score + n
    ensures ScoreFrames(w, n).speed
      == w.speed + SpeedStep * (((w.score + n) / Milestone - w.score / Milestone) as real)
  {
    if n > 0 {
      SpeedFollowsMilestones(w, n - 1);
      var s := w.score + n;
      assert s / Milestone == (s - 1) / Milestone + (if s % Milestone == 0 then 1 else 0);
    }
  }

  /** `updateGround`: the dash pattern scrolls left by the speed and jumps back
      to 0 once it has moved a full period or more. */
  function UpdateGround(w: World): (w': World)
    ensures w'.groundX == 0.0 || w'.groundX == w.groundX - w.speed
    ensures w'.groundX > -DashPeriod
    ensures w.groundX - w.speed > -DashPeriod ==> w'.groundX == w.groundX - w.speed
    ensures w.groundX - w.speed <= -DashPeriod ==> w'.groundX == 0.0
    ensures w' == w.(groundX := w'.groundX)
  {
    var x := w.groundX - w.speed;
    w.(groundX := if x <= -DashPeriod then 0.0 else x)
  }

  /** The ground offset stays within one dash period. */
  lemma GroundStaysInPeriod(w: World)
    requires -DashPeriod < w.groundX <= 0.0 && w.speed > 0.0
    ensures -DashPeriod < UpdateGround(w).groundX <= 0.0
  {
  }
}
