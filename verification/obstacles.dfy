/**
 Obstacle generation and movement: the spawn timer, the fixed cactus, and the
 per-frame sweep that shifts every obstacle left and culls the ones that have
 left the screen, paying a bonus for each.
 */
module Obstacles {
  import opened Entities

  /** The spawn threshold drawn from `random`, the value `Math.random()`
      returns (uniform in [0, 1)). */
  function SpawnThreshold(random: real): (t: real)
    ensures 0.0 <= random < 1.0 ==> MinObstacleDistance <= t < MaxObstacleDistance
  {
    MinObstacleDistance + random * (MaxObstacleDistance - MinObstacleDistance)
  }

  /** Whether the incremented spawn timer exceeds the threshold. */
  predicate ShouldSpawn(timer: nat, random: real)
  {
    (timer + 1) as real > SpawnThreshold(random)
  }

  /** `createObstacle`: a cactus standing on the ground at the right edge. */
  function CreateObstacle(canvasWidth: real, groundY: real): (o: Obstacle)
    ensures o.x == canvasWidth && o.y + o.height == groundY
    ensures o.width == CactusWidth && o.height == CactusHeight
  {
    Cactus(canvasWidth, groundY - CactusHeight, CactusWidth, CactusHeight)
  }

  /** The obstacle after one frame of scrolling. */
  function Advance(o: Obstacle, speed: real): Obstacle
  {
    o.(x := o.x - speed)
  }

  /** The obstacle's right edge has passed the left border of the canvas. */
  predicate OffScreen(o: Obstacle)
  {
    o.x + o.width < 0.0
  }

  /** The outcome of one sweep: the surviving obstacles, in their original
      order, and how many were removed. */
  datatype Swept = Swept(kept: seq<Obstacle>, removed: nat)

  /** The obstacle pass of `updateObstacles`: every obstacle moves left by
      `speed`; those then off screen are dropped and counted. */
  function Sweep(obs: seq<Obstacle>, speed: real): (r: Swept)
    ensures |r.kept| + r.removed == |obs|
    ensures forall i :: 0 <= i < |r.kept| ==> !OffScreen(r.kept[i])
    decreases |obs|
  {
    if obs == [] then Swept([], 0)
    else
      var rest := Sweep(obs[1..], speed);
      var o := Advance(obs[0], speed);
      if OffScreen(o) then Swept(rest.kept, rest.removed + 1)
      else Swept([o] + rest.kept, rest.removed)
  }

  /** The sweep as the game performs it: walking the list from the back,
      shifting each obstacle in place and splicing it out when it has left the
      screen. It computes exactly `Sweep`, with 10 points per removal. */
  method SweepInPlace(obs: seq<Obstacle>, speed: real) returns (result: seq<Obstacle>, bonus: nat)
    ensures result == Sweep(obs, speed).kept
    ensures bonus == OffScreenBonus * Sweep(obs, speed).removed
  {
    result := obs;
    bonus := 0;
    var i := |obs|;
    while i > 0
      invariant 0 <= i <= |obs|
      invariant result == obs[..i] + Sweep(obs[i..], speed).kept
      invariant bonus == OffScreenBonus * Sweep(obs[i..], speed).removed
    {
      i := i - 1;
      assert obs[i..][1..] == obs[i + 1..];
      var tail := Sweep(obs[i + 1..], speed).kept;
      assert result == obs[..i] + [obs[i]] + tail by {
        assert obs[..i + 1] == obs[..i] + [obs[i]];
      }
      result := result[i := Advance(result[i], speed)];
      assert result == obs[..i] + [Advance(obs[i], speed)] + tail;
      if OffScreen(result[i]) {
        result := result[..i] + result[i + 1..];
        assert result == obs[..i] + tail;
        bonus := bonus + OffScreenBonus;
      }
    }
    assert obs[0..] == obs;
  }

  /** The spawn half of `updateObstacles`: the timer ticks, and once it exceeds
      the threshold a cactus is appended and the timer restarts. */
  function SpawnStep(w: World, random: real): (w': World)
    ensures ShouldSpawn(w.obstacleTimer, random) ==>
      w'.obstacles == w.obstacles + [CreateObstacle(w.canvasWidth, w.groundY)] && w'.obstacleTimer == 0
    ensures !ShouldSpawn(w.obstacleTimer, random) ==>
      w'.obstacles == w.obstacles && w'.obstacleTimer == w.obstacleTimer + 1
    ensures w' == w.(obstacles := w'.obstacles, obstacleTimer := w'.obstacleTimer)
  {
    if ShouldSpawn(w.obstacleTimer, random) then
      w.(obstacles := w.obstacles + [CreateObstacle(w.canvasWidth, w.groundY)], obstacleTimer := 0)
    else
      w.(obstacleTimer := w.obstacleTimer + 1)
  }

  /** `updateObstacles`: spawn, then sweep all obstacles (the new one included)
      and add the bonus for each one removed. */
  function UpdateObstacles(w: World, random: real): (w': World)
    ensures w'.obstacleTimer == 0 <==> ShouldSpawn(w.obstacleTimer, random)
    ensures !ShouldSpawn(w.obstacleTimer, random) ==> w'.obstacleTimer == w.obstacleTimer + 1
    ensures |w'.obstacles| <= |w.obstacles| + 1
    ensures forall i :: 0 <= i < |w'.obstacles| ==> !OffScreen(w'.obstacles[i])
    ensures w'.score == w.score + OffScreenBonus * (|SpawnStep(w, random).obstacles| - |w'.obstacles|)
    ensures w' == w.(obstacles := w'.obstacles, score := w'.score, obstacleTimer := w'.obstacleTimer)
  {
    var s := SpawnStep(w, random);
    var r := Sweep(s.obstacles, w.speed);
    s.(obstacles := r.kept, score := s.score + OffScreenBonus * r.removed)
  }

  /** With a genuine `Math.random()` value, obstacles are at least 201 frames
      apart and, over exact reals, at most 400. */
  lemma SpawnGap(timer: nat, random: real)
    requires 0.0 <= random < 1.0
    ensures ShouldSpawn(timer, random) ==> timer + 1 > 200
    ensures timer + 1 >= 400 ==> ShouldSpawn(timer, random)
  {
  }

  /** The sweep works obstacle by obstacle: sweeping a concatenation sweeps
      each part and concatenates the survivors in order. */
  lemma {:induction false} SweepAppend(a: seq<Obstacle>, b: seq<Obstacle>, speed: real)
    ensures Sweep(a + b, speed).kept == Sweep(a, speed).kept + Sweep(b, speed).kept
    ensures Sweep(a + b, speed).removed == Sweep(a, speed).removed + Sweep(b, speed).removed
    decreases |a|
  {
    if a == [] {
      assert a + b == b;
    } else {
      assert (a + b)[1..] == a[1..] + b;
      SweepAppend(a[1..], b, speed);
    }
  }

  /** A kept obstacle is exactly a shifted obstacle that is still on screen. */
  lemma {:induction false} SweepMembers(obs: seq<Obstacle>, speed: real, o: Obstacle)
    ensures o in Sweep(obs, speed).kept <==>
      !OffScreen(o) && exists i :: 0 <= i < |obs| && o == Advance(obs[i], speed)
    decreases |obs|
  {
    if obs != [] {
      SweepMembers(obs[1..], speed, o);
      if exists i :: 0 <= i < |obs| && o == Advance(obs[i], speed) {
        var i :| 0 <= i < |obs| && o == Advance(obs[i], speed);
        if i > 0 {
          assert o == Advance(obs[1..][i - 1], speed);
        }
      }
      if exists i :: 0 <= i < |obs[1..]| && o == Advance(obs[1..][i], speed) {
        var i :| 0 <= i < |obs[1..]| && o == Advance(obs[1..][i], speed);
        assert o == Advance(obs[i + 1], speed);
      }
    }
  }

  /** When every shifted obstacle is still on screen, all survive in order and
      nothing is removed; when all have left, none survives. */
  lemma {:induction false} SweepExtremes(obs: seq<Obstacle>, speed: real)
    ensures (forall i :: 0 <= i < |obs| ==> !OffScreen(Advance(obs[i], speed))) ==>
      Sweep(obs, speed) == Swept(seq(|obs|, i requires 0 <= i < |obs| => Advance(obs[i], speed)), 0)
    ensures (forall i :: 0 <= i < |obs| ==> OffScreen(Advance(obs[i], speed))) ==>
      Sweep(obs, speed) == Swept([], |obs|)
    decreases |obs|
  {
    if obs != [] {
      SweepExtremes(obs[1..], speed);
      var all := seq(|obs|, i requires 0 <= i < |obs| => Advance(obs[i], speed));
      var rest := seq(|obs| - 1, i requires 0 <= i < |obs| - 1 => Advance(obs[1..][i], speed));
      assert all == [Advance(obs[0], speed)] + rest;
    }
  }

  /** Obstacles of the one cactus shape standing on the ground, in
      strictly increasing x order (the order they were created in). */
  predicate CactusRow(obs: seq<Obstacle>, groundY: real)
  {
    && (forall i :: 0 <= i < |obs| ==>
          obs[i].y == groundY - CactusHeight && obs[i].width == CactusWidth && obs[i].height == CactusHeight)
    && (forall i, j :: 0 <= i < j < |obs| ==> obs[i].x < obs[j].x)
  }

  /** All obstacles lie at or left of `bound`. */
  predicate NotBeyond(obs: seq<Obstacle>, bound: real)
  {
    forall i :: 0 <= i < |obs| ==> obs[i].x <= bound
  }

  /** Sweeping keeps the row ordered and moves its right end left by `speed`. */
  lemma {:induction false} SweepKeepsRow(obs: seq<Obstacle>, speed: real, groundY: real, bound: real)
    requires CactusRow(obs, groundY) && NotBeyond(obs, bound)
    ensures CactusRow(Sweep(obs, speed).kept, groundY)
    ensures NotBeyond(Sweep(obs, speed).kept, bound - speed)
    decreases |obs|
  {
    if obs != [] {
      var tail := obs[1..];
      SweepKeepsRow(tail, speed, groundY, bound);
      var kept := Sweep(tail, speed).kept;
      var o := Advance(obs[0], speed);
      if !OffScreen(o) {
        forall j | 0 <= j < |kept|
          ensures o.x < kept[j].x
        {
          SweepMembers(tail, speed, kept[j]);
          var i :| 0 <= i < |tail| && kept[j] == Advance(tail[i], speed);
          assert tail[i] == obs[i + 1];
        }
        var r := [o] + kept;
        assert Sweep(obs, speed).kept == r;
        forall i, j | 0 <= i < j < |r|
          ensures r[i].x < r[j].x
        {
          if i > 0 {
            assert r[i] == kept[i - 1] && r[j] == kept[j - 1];
          } else {
            assert r[j] == kept[j - 1];
          }
        }
      }
    }
  }

  /** Each frame keeps the obstacles a row of cacti strictly left of the right
      edge, in creation order, provided the world scrolls. */
  lemma UpdateObstaclesKeepsRow(w: World, random: real)
    requires w.speed > 0.0
    requires CactusRow(w.obstacles, w.groundY)
    requires forall i :: 0 <= i < |w.obstacles| ==> w.obstacles[i].x < w.canvasWidth
    ensures CactusRow(UpdateObstacles(w, random).obstacles, w.groundY)
    ensures forall i :: 0 <= i < |UpdateObstacles(w, random).obstacles| ==>
      UpdateObstacles(w, random).obstacles[i].x < w.canvasWidth
  {
    var pre := SpawnStep(w, random).obstacles;
    assert CactusRow(pre, w.groundY) by {
      if ShouldSpawn(w.obstacleTimer, random) {
        var n := CreateObstacle(w.canvasWidth, w.groundY);
        assert pre == w.obstacles + [n];
        forall i, j | 0 <= i < j < |pre|
          ensures pre[i].x < pre[j].x
        {
          if j == |pre| - 1 {
            assert pre[i] == w.obstacles[i];
          }
        }
      }
    }
    assert NotBeyond(pre, w.canvasWidth);
    SweepKeepsRow(pre, w.speed, w.groundY, w.canvasWidth);
  }

  /** The cactus spawned this frame is already shifted by the current speed,
      and it is the last obstacle of the list. */
  lemma NewCactusIsShifted(w: World, random: real)
    requires ShouldSpawn(w.obstacleTimer, random)
    requires w.canvasWidth - w.speed + CactusWidth >= 0.0
    ensures |UpdateObstacles(w, random).obstacles| > 0
    ensures var obs := UpdateObstacles(w, random).obstacles;
      obs[|obs| - 1] == Cactus(w.canvasWidth - w.speed, w.groundY - CactusHeight, CactusWidth, CactusHeight)
  {
    var n := CreateObstacle(w.canvasWidth, w.groundY);
    SweepAppend(w.obstacles, [n], w.speed);
    assert [n][1..] == [];
  }

  /** Survivors of a frame are exactly the shifted, still-visible obstacles
      that existed or were spawned, in order; without a spawn the list is just
      swept. */
  lemma UpdateObstaclesSurvivors(w: World, random: real)
    ensures !ShouldSpawn(w.obstacleTimer, random) ==>
      UpdateObstacles(w, random).obstacles == Sweep(w.obstacles, w.speed).kept
    ensures ShouldSpawn(w.obstacleTimer, random) ==>
      UpdateObstacles(w, random).obstacles
        == Sweep(w.obstacles, w.speed).kept + Sweep([CreateObstacle(w.canvasWidth, w.groundY)], w.speed).kept
  {
    if ShouldSpawn(w.obstacleTimer, random) {
      SweepAppend(w.obstacles, [CreateObstacle(w.canvasWidth, w.groundY)], w.speed);
    }
  }
}
