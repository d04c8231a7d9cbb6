/*
 * The PlayerMovement component as an object whose fields its methods update
 * in place. Each method's contract ties the new field values to a pure
 * step function in module Locomotion (the one of the same name, or Face for
 * MoveCharacter; Flip states its update directly), and records what the
 * method hands to the engine (animator parameters, the rotation, the
 * displacement passed to CharacterController.Move) in ghost logs.
 */
module Player {
  import opened Locomotion

  /** One write to the animator. */
  datatype AnimatorWrite =
    | SetGrounded(grounded: bool)
    | SetSpeed(speed: Option<real>)
    | JumpTrigger

  class PlayerMovement {
    // Tuning values, fixed per object.
    const moveSpeed: real
    const jumpHeight: real
    const drag: (real, real)
    const gravity: real
    const dashDistance: real
    const dashCooldown: real
    const dashDuration: real

    // Private state.
    var dashCooldownTimer: real
    var dashTimer: real
    var moveDirection: Vec3
    var isGrounded: bool
    var isFacingRight: bool
    var isDashing: bool

    // What the component has handed to the engine, oldest first.
    ghost var animator: seq<AnimatorWrite>
    ghost var rotations: seq<int>
    ghost var moves: seq<Vec3>

    function Settings(): Config
    {
      Config(moveSpeed, jumpHeight, drag.0, drag.1, gravity, dashDistance, dashCooldown, dashDuration)
    }

    function Snapshot(): State
      reads this
    {
      State(moveDirection, dashTimer, dashCooldownTimer, isGrounded, isFacingRight, isDashing)
    }

    ghost predicate Valid()
      reads this
    {
      Inv(Settings(), Snapshot())
    }

    /** A fresh component for the given tuning values, at rest and facing right. */
    constructor (c: Config)
      ensures Settings() == c && Snapshot() == Initial
      ensures animator == [] && rotations == [] && moves == []
      ensures 0.0 <= c.dashDuration && 0.0 <= c.dashCooldown ==> Valid()
    {
      moveSpeed, jumpHeight, drag, gravity := c.moveSpeed, c.jumpHeight, (c.dragX, c.dragY), c.gravity;
      dashDistance, dashCooldown, dashDuration := c.dashDistance, c.dashCooldown, c.dashDuration;
      dashCooldownTimer, dashTimer := 0.0, 0.0;
      moveDirection := Zero;
      isGrounded, isFacingRight, isDashing := false, true, false;
      animator, rotations, moves := [], [], [];
    }

    /** The per-frame tick; `contact` is characterController.isGrounded. */
    method Update(contact: bool, elapsed: real)
      modifies this
      ensures Snapshot() == Locomotion.Update(old(Snapshot()), contact, elapsed)
      ensures animator == old(animator) + [SetGrounded(contact)]
      ensures rotations == old(rotations) && moves == old(moves)
      ensures old(Valid()) && 0.0 <= elapsed ==> Valid()
    {
      isGrounded := contact;
      animator := animator + [SetGrounded(isGrounded)];
      DashTimers(elapsed);
      if old(Valid()) && 0.0 <= elapsed {
        UpdateInv(Settings(), old(Snapshot()), contact, elapsed);
      }
    }

    method DashTimers(elapsed: real)
      modifies this
      ensures Snapshot() == Locomotion.DashTimers(old(Snapshot()), elapsed)
      ensures animator == old(animator) && rotations == old(rotations) && moves == old(moves)
      ensures old(Valid()) && 0.0 <= elapsed ==> Valid()
    {
      if dashTimer > 0.0 {
        dashTimer := dashTimer - elapsed;
      } else if isDashing {
        isDashing := false;
      }
      if dashCooldownTimer > 0.0 {
        dashCooldownTimer := dashCooldownTimer - elapsed;
      }
    }

    /** The physics tick. */
    method FixedUpdate(elapsed: real)
      requires DragDefined(Settings(), elapsed)
      modifies this
      ensures Snapshot() == Locomotion.FixedUpdate(Settings(), old(Snapshot()), elapsed).after
      ensures var t := Locomotion.FixedUpdate(Settings(), old(Snapshot()), elapsed);
        moves == old(moves) + [t.displacement] &&
        animator == old(animator) + [SetSpeed(t.speed)] &&
        rotations == old(rotations) + (if t.flipped then [Yaw(isFacingRight)] else [])
      ensures old(Valid()) ==> Valid()
    {
      if isGrounded && moveDirection.y < 0.0 {
        moveDirection := moveDirection.(y := 0.0);
      } else {
        moveDirection := moveDirection.(y := moveDirection.y + gravity * elapsed);
      }
      moveDirection := moveDirection.(z := 0.0);
      assert moveDirection == PreMove(Settings(), old(Snapshot()), elapsed);
      MoveCharacter(elapsed);
      AddDrag(elapsed);
    }

    method AddDrag(elapsed: real)
      requires DragDefined(Settings(), elapsed)
      modifies this
      ensures Snapshot() == Locomotion.AddDrag(Settings(), old(Snapshot()), elapsed)
      ensures animator == old(animator) && rotations == old(rotations) && moves == old(moves)
      ensures old(Valid()) ==> Valid()
    {
      moveDirection := moveDirection.(x := Damp(moveDirection.x, drag.0, elapsed));
      moveDirection := moveDirection.(y := Damp(moveDirection.y, drag.1, elapsed));
    }

    /** Hand the displacement to the body, flip if needed, report the speed. */
    method MoveCharacter(elapsed: real)
      modifies this
      ensures Snapshot() == Face(old(Snapshot()))
      ensures moves == old(moves) + [Times(old(moveDirection), elapsed)]
      ensures animator == old(animator) + [SetSpeed(SpeedParam(moveDirection.x, moveSpeed))]
      ensures rotations == old(rotations) +
        (if NeedsFlip(old(moveDirection.x), old(isFacingRight)) then [Yaw(isFacingRight)] else [])
      ensures old(Valid()) ==> Valid()
    {
      moves := moves + [Times(moveDirection, elapsed)];
      if (moveDirection.x > 0.0 && !isFacingRight) || (moveDirection.x < 0.0 && isFacingRight) {
        Flip();
      }
      animator := animator + [SetSpeed(SpeedParam(moveDirection.x, moveSpeed))];
    }

    method Flip()
      modifies this
      ensures Snapshot() == old(Snapshot()).(isFacingRight := !old(isFacingRight))
      ensures rotations == old(rotations) + [Yaw(isFacingRight)]
      ensures animator == old(animator) && moves == old(moves)
      ensures old(Valid()) ==> Valid()
    {
      isFacingRight := !isFacingRight;
      rotations := rotations + [if isFacingRight then 90 else -90];
    }

    method SetHorizontalSpeed(input: real)
      modifies this
      ensures Snapshot() == Locomotion.SetHorizontalSpeed(Settings(), old(Snapshot()), input)
      ensures animator == old(animator) && rotations == old(rotations) && moves == old(moves)
      ensures old(Valid()) ==> Valid()
    {
      if isDashing {
        return;
      }
      var newSpeed := moveDirection.x + input;
      moveDirection := moveDirection.(x := Clamp(newSpeed, -moveSpeed, moveSpeed));
    }

    method Jump()
      modifies this
      ensures Snapshot() == Locomotion.Jump(Settings(), old(Snapshot()))
      ensures animator == old(animator) + (if old(isGrounded) then [JumpTrigger] else [])
      ensures rotations == old(rotations) && moves == old(moves)
      ensures old(Valid()) ==> Valid()
    {
      if !isGrounded {
        return;
      }
      animator := animator + [JumpTrigger];
      moveDirection := moveDirection.(y := moveDirection.y + jumpHeight);
    }

    /**
     * `elapsed` is the deltaTime at the call, `forward` the transform's forward
     * direction and `log` the natural logarithm.
     */
    method Dash(elapsed: real, forward: Vec3, log: real -> real)
      requires dashCooldownTimer <= 0.0 ==> BurstDefined(Settings(), elapsed)
      modifies this
      ensures Snapshot() == Locomotion.Dash(Settings(), old(Snapshot()), elapsed, forward, log)
      ensures animator == old(animator) && rotations == old(rotations) && moves == old(moves)
      ensures old(Valid()) ==> Valid()
    {
      if dashCooldownTimer > 0.0 {
        return;
      }
      moveDirection := Add(moveDirection, Burst(Settings(), elapsed, forward, log));
      isDashing := true;
      dashTimer := dashDuration;
      dashCooldownTimer := dashCooldown;
    }
  }
}
