/**
 The dinosaur's vertical kinematics: the jump impulse and the per-frame
 gravity step with the landing snap.
 */
module Dinosaur {
  import opened Entities

  /** The dinosaur is on or above the ground, and when it is not jumping it
      stands still exactly on the ground. */
  predicate DinoOk(d: Dino, groundY: real)
  {
    && d.y <= RestY(groundY)
    && (!d.isJumping ==> d.y == RestY(groundY) && d.jumpSpeed == 0.0)
  }

  /** `jump`: a grounded dinosaur gets the upward impulse; an airborne one is
      left alone (no double jump). */
  function Jump(d: Dino): (d': Dino)
    ensures !d.isJumping ==> d'.isJumping && d'.jumpSpeed == JumpImpulse && d'.y == d.y
    ensures d.isJumping ==> d' == d
  {
    if !d.isJumping then d.(isJumping := true, jumpSpeed := JumpImpulse) else d
  }

  /** `updateDinosaur`: while jumping, gravity is added to the velocity and the
      velocity to the position; reaching or passing the resting height snaps
      the dinosaur onto the ground and ends the jump. */
  function UpdateDinosaur(d: Dino, groundY: real): (d': Dino)
    ensures !d.isJumping ==> d' == d
    ensures d.isJumping && d.y + d.jumpSpeed + Gravity >= RestY(groundY) ==> d' == Grounded(groundY)
    ensures d.isJumping && d.y + d.jumpSpeed + Gravity < RestY(groundY) ==>
      d' == Dino(d.y + d.jumpSpeed + Gravity, true, d.jumpSpeed + Gravity)
    ensures d'.isJumping ==>
      && d'.y < RestY(groundY)
      && d'.jumpSpeed == d.jumpSpeed + Gravity
      && d'.y == d.y + d'.jumpSpeed
    ensures d.isJumping ==> d'.y <= RestY(groundY)
  {
    if d.isJumping then
      var v := d.jumpSpeed + Gravity;
      var y := d.y + v;
      if y >= RestY(groundY) then Grounded(groundY)
      else Dino(y, true, v)
    else d
  }

  /** A second jump request while airborne changes nothing. */
  lemma JumpIdempotent(d: Dino)
    ensures Jump(Jump(d)) == Jump(d)
  {
  }

  /** Neither a jump nor a gravity step can take the dinosaur below the
      ground or leave it grounded with a leftover velocity. */
  lemma DinoOkPreserved(d: Dino, groundY: real)
    requires DinoOk(d, groundY)
    ensures DinoOk(Jump(d), groundY)
    ensures DinoOk(UpdateDinosaur(d, groundY), groundY)
  {
  }

  /** The dinosaur after `k` gravity steps. */
  function Fly(d: Dino, groundY: real, k: nat): Dino
  {
    if k == 0 then d else UpdateDinosaur(Fly(d, groundY, k - 1), groundY)
  }

  /** The frames a jump from the ground stays in the air. */
  const AirFrames: nat := 29

  /** The closed form of a jump from the ground: `k` frames into the jump the
      dinosaur is `0.6 * k * (29 - k)` above the ground with velocity
      `-18 + 1.2 * k`; on frame 29 it is exactly back on the ground. */
  lemma {:induction false} JumpArc(groundY: real, k: nat)
    requires k <= AirFrames
    ensures k < AirFrames ==>
      Fly(Jump(Grounded(groundY)), groundY, k)
        == Dino(RestY(groundY) - 0.6 * ((k * (29 - k)) as real), true, -18.0 + 1.2 * (k as real))
    ensures k == AirFrames ==> Fly(Jump(Grounded(groundY)), groundY, k) == Grounded(groundY)
  {
    if k > 0 {
      JumpArc(groundY, k - 1);
      var prev := Fly(Jump(Grounded(groundY)), groundY, k - 1);
      var m, m' := k * (29 - k), (k - 1) * (30 - k);
      assert m - m' == 30 - 2 * k;
      assert prev == Dino(RestY(groundY) - 0.6 * (m' as real), true, -18.0 + 1.2 * ((k - 1) as real));
      var v := prev.jumpSpeed + Gravity;
      var y := prev.y + v;
      assert y == RestY(groundY) - 0.6 * (m as real);
      if k < AirFrames {
        PositiveProduct(k, 29 - k);
        assert UpdateDinosaur(prev, groundY) == Dino(y, true, v);
      }
    }
  }

  /** After landing, further frames leave the dinosaur on the ground. */
  lemma {:induction false} StaysGrounded(groundY: real, k: nat)
    requires k >= AirFrames
    ensures Fly(Jump(Grounded(groundY)), groundY, k) == Grounded(groundY)
  {
    if k == AirFrames {
      JumpArc(groundY, k);
    } else {
      StaysGrounded(groundY, k - 1);
    }
  }

  /** The jump's highest point is 126 above the resting height, reached on
      frames 14 and 15; this exceeds `MaxJumpHeight`, which nothing enforces. */
  lemma JumpPeak(groundY: real, k: nat)
    ensures Fly(Jump(Grounded(groundY)), groundY, k).y >= RestY(groundY) - 126.0
    ensures Fly(Jump(Grounded(groundY)), groundY, 15).y == RestY(groundY) - 126.0
    ensures 126.0 > MaxJumpHeight
  {
    JumpArc(groundY, 15);
    if k < AirFrames {
      JumpArc(groundY, k);
      if k <= 14 {
        NonNegativeProduct(14 - k, 15 - k);
      } else {
        NonNegativeProduct(k - 14, k - 15);
      }
      assert (k - 14) * (k - 15) == 210 - k * (29 - k);
    } else {
      StaysGrounded(groundY, k);
    }
  }

  lemma PositiveProduct(a: int, b: int)
    requires a > 0 && b > 0
    ensures a * b > 0
  {
  }

  lemma NonNegativeProduct(a: int, b: int)
    requires a >= 0 && b >= 0
    ensures a * b >= 0
  {
  }
}
