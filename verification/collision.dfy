/**
 Collision between the dinosaur and the obstacles.
 */
module Collision {
  import opened Geometry
  import opened Entities
  import Lifecycle

  /** The loop of `checkCollisions`: the obstacles are tested in order and the
      first overlap ends the search. The result says whether any obstacle
      overlaps `box`. */
  function AnyCollision(box: Rect, obs: seq<Obstacle>): (hit: bool)
    ensures hit <==> exists i :: 0 <= i < |obs| && Overlaps(box, ObstacleBox(obs[i]))
    decreases |obs|
  {
    if obs == [] then false
    else if Overlaps(box, ObstacleBox(obs[0])) then true
    else AnyCollision(box, obs[1..])
  }

  /** `checkCollisions`: the game is over exactly when the dinosaur overlaps
      some obstacle; otherwise nothing changes. */
  function CheckCollisions(w: World): (w': World)
    ensures (exists i :: 0 <= i < |w.obstacles| && Overlaps(DinoBox(w.dino), ObstacleBox(w.obstacles[i])))
      ==> w' == Lifecycle.EnterGameOver(w)
    ensures (forall i :: 0 <= i < |w.obstacles| ==> !Overlaps(DinoBox(w.dino), ObstacleBox(w.obstacles[i])))
      ==> w' == w
  {
    if AnyCollision(DinoBox(w.dino), w.obstacles) then Lifecycle.EnterGameOver(w) else w
  }

  /** An obstacle that touches the dinosaur only along an edge does not end
      the game. */
  lemma EdgeContactIsHarmless(d: Dino, o: Obstacle)
    requires o.x == DinoX + DinoWidth || o.y == d.y + DinoHeight
    ensures !AnyCollision(DinoBox(d), [o])
  {
    TouchingRectsDoNotOverlap(DinoBox(d), ObstacleBox(o));
  }
}
