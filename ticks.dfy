/*
 * Runs of repeated ticks and the properties that only show over several
 * calls: how a dash ends, how the cooldown gates a second dash, how the
 * body falls, and how repeated input saturates at moveSpeed.
 */
module Ticks {
  import opened Locomotion

  /** What the engine supplies to one per-frame Update: ground contact and deltaTime. */
  datatype Frame = Frame(contact: bool, elapsed: real)

  /** The state after Update has run once per frame, in order. */
  function Frames(s: State, frames: seq<Frame>): State
    decreases |frames|
  {
    if frames == [] then s
    else Frames(Update(s, frames[0].contact, frames[0].elapsed), frames[1..])
  }

  /** The time the frames add up to. */
  function Total(frames: seq<Frame>): real
    decreases |frames|
  {
    if frames == [] then 0.0 else frames[0].elapsed + Total(frames[1..])
  }

  predicate ConstantElapsed(frames: seq<Frame>, e: real) {
    forall i :: 0 <= i < |frames| ==> frames[i].elapsed == e
  }

  predicate Forward(frames: seq<Frame>) {
    forall i :: 0 <= i < |frames| ==> 0.0 <= frames[i].elapsed
  }

  lemma {:induction false} FramesAppend(s: State, a: seq<Frame>, b: seq<Frame>)
    ensures Frames(s, a + b) == Frames(Frames(s, a), b)
    decreases |a|
  {
    if a != [] {
      assert (a + b)[0] == a[0] && (a + b)[1..] == a[1..] + b;
      FramesAppend(Update(s, a[0].contact, a[0].elapsed), a[1..], b);
    } else {
      assert a + b == b;
    }
  }

  /** Per-frame ticks never touch the velocity or the facing. */
  lemma {:induction false} FramesKeepVelocity(s: State, frames: seq<Frame>)
    ensures Frames(s, frames).velocity == s.velocity
    ensures Frames(s, frames).isFacingRight == s.isFacingRight
    decreases |frames|
  {
    if frames != [] {
      FramesKeepVelocity(Update(s, frames[0].contact, frames[0].elapsed), frames[1..]);
    }
  }

  /** Inv holds across any run of per-frame ticks that do not go back in time. */
  lemma {:induction false} FramesInv(c: Config, s: State, frames: seq<Frame>)
    requires Inv(c, s) && Forward(frames)
    ensures Inv(c, Frames(s, frames))
    decreases |frames|
  {
    if frames != [] {
      UpdateInv(c, s, frames[0].contact, frames[0].elapsed);
      FramesInv(c, Update(s, frames[0].contact, frames[0].elapsed), frames[1..]);
    }
  }

  /**
   * While the dash timer is positive at the start of every frame, each frame
   * takes exactly e off it and leaves the dash flag alone.
   */
  lemma {:induction false} TimerCountsDown(s: State, frames: seq<Frame>, e: real)
    requires 0.0 <= e && ConstantElapsed(frames, e)
    requires |frames| > 0 ==> s.dashTimer - (|frames| - 1) as real * e > 0.0
    ensures Frames(s, frames).dashTimer == s.dashTimer - |frames| as real * e
    ensures Frames(s, frames).isDashing == s.isDashing
    decreases |frames|
  {
    if frames != [] {
      var n := |frames| as real;
      assert s.dashTimer > 0.0 by {
        MulMono(0.0, n - 1.0, e);
      }
      var s1 := Update(s, frames[0].contact, frames[0].elapsed);
      assert s1.dashTimer == s.dashTimer - e;
      assert s1.dashTimer - (n - 2.0) * e == s.dashTimer - (n - 1.0) * e;
      TimerCountsDown(s1, frames[1..], e);
      assert s1.dashTimer - (n - 1.0) * e == s.dashTimer - n * e;
    }
  }

  /**
   * The number of frames of length e after which a timer that starts at t is
   * no longer positive: the first n with t - n * e <= 0.
   */
  function ExpiryFrame(t: real, e: real): (n: nat)
    requires 0.0 < e
    ensures t - n as real * e <= 0.0
    ensures 0 < n ==> 0.0 < t - (n - 1) as real * e
  {
    if t <= 0.0 then 0
    else
      var r := t / e;
      var q := r.Floor;
      assert q as real <= r < q as real + 1.0;
      assert r * e == t;
      MulMono(q as real, r, e);
      MulStrict(r, q as real + 1.0, e);
      assert 0 <= q by { assert 0.0 < r; }
      if q as real * e == t then
        assert 0 < q by { assert q as real * e > 0.0; }
        q
      else
        q + 1
  }

  lemma MulMono(a: real, b: real, e: real)
    requires a <= b && 0.0 <= e
    ensures a * e <= b * e
  {
  }

  lemma MulStrict(a: real, b: real, e: real)
    requires a < b && 0.0 < e
    ensures a * e < b * e
  {
  }

  /**
   * The life of a dash under frames of constant length e > 0. Let n be the
   * frame at which the dash timer first stops being positive. For every
   * earlier frame the timer is positive and the dash is on; at frame n the
   * timer is at most 0 (in general below 0: it is not clamped) and the dash
   * is still on; one frame later the dash is over.
   */
  lemma DashLifecycle(c: Config, s: State, elapsed: real, forward: Vec3, log: real -> real,
                      frames: seq<Frame>, e: real)
    requires s.dashCooldownTimer <= 0.0 && BurstDefined(c, elapsed)
    requires 0.0 < c.dashDuration && 0.0 < e
    requires ConstantElapsed(frames, e)
    requires |frames| == ExpiryFrame(c.dashDuration, e) + 1
    ensures var d := Dash(c, s, elapsed, forward, log);
      var n := ExpiryFrame(c.dashDuration, e);
      (forall k :: 0 <= k < n ==> 0.0 < Frames(d, frames[..k]).dashTimer && Frames(d, frames[..k]).isDashing) &&
      Frames(d, frames[..n]).isDashing &&
      Frames(d, frames[..n]).dashTimer == c.dashDuration - n as real * e &&
      Frames(d, frames[..n]).dashTimer <= 0.0 &&
      !Frames(d, frames).isDashing
  {
    var d := Dash(c, s, elapsed, forward, log);
    var n := ExpiryFrame(c.dashDuration, e);
    forall k | 0 <= k < n
      ensures 0.0 < Frames(d, frames[..k]).dashTimer && Frames(d, frames[..k]).isDashing
    {
      ActiveBeforeExpiry(d, frames, e, n, k);
    }
    ExpiresAt(d, frames, e, n);
  }

  /** Before the expiry frame the timer is still positive and the dash still on. */
  lemma {:induction false} ActiveBeforeExpiry(s: State, frames: seq<Frame>, e: real, n: nat, k: nat)
    requires 0.0 < e && ConstantElapsed(frames, e) && s.isDashing
    requires 0 < n ==> 0.0 < s.dashTimer - (n - 1) as real * e
    requires k < n && k <= |frames|
    ensures 0.0 < Frames(s, frames[..k]).dashTimer && Frames(s, frames[..k]).isDashing
  {
    var t := s.dashTimer;
    var pre := frames[..k];
    assert |pre| == k;
    assert ConstantElapsed(pre, e);
    assert 0.0 < t - (n - 1) as real * e;
    MulMono(k as real, (n - 1) as real, e);
    assert t - k as real * e > 0.0;
    if 0 < k {
      MulMono((k - 1) as real, k as real, e);
      assert t - (|pre| - 1) as real * e > 0.0;
    }
    TimerCountsDown(s, pre, e);
  }

  /**
   * At the expiry frame the timer is no longer positive but the dash is still
   * on; the frame after it ends the dash.
   */
  lemma {:induction false} ExpiresAt(s: State, frames: seq<Frame>, e: real, n: nat)
    requires 0.0 < e && ConstantElapsed(frames, e) && s.isDashing
    requires s.dashTimer - n as real * e <= 0.0
    requires 0 < n ==> 0.0 < s.dashTimer - (n - 1) as real * e
    requires |frames| == n + 1
    ensures Frames(s, frames[..n]).isDashing
    ensures Frames(s, frames[..n]).dashTimer == s.dashTimer - n as real * e
    ensures !Frames(s, frames).isDashing
  {
    var pre := frames[..n];
    assert |pre| == n && ConstantElapsed(pre, e);
    TimerCountsDown(s, pre, e);
    assert frames == pre + [frames[n]];
    FramesAppend(s, pre, [frames[n]]);
    LastFrame(Frames(s, pre), frames[n]);
  }

  /** A frame that starts with the dash timer not positive ends the dash. */
  lemma LastFrame(s: State, f: Frame)
    requires s.dashTimer <= 0.0
    ensures !Frames(s, [f]).isDashing
  {
    assert [f][1..] == [];
  }

  /**
   * The cooldown runs down by exactly the frames' total time while that
   * total stays below it.
   */
  lemma {:induction false} CooldownCountsDown(s: State, frames: seq<Frame>)
    requires Forward(frames) && Total(frames) < s.dashCooldownTimer
    ensures Frames(s, frames).dashCooldownTimer == s.dashCooldownTimer - Total(frames)
    decreases |frames|
  {
    if frames != [] {
      TotalNonnegative(frames[1..]);
      var s1 := Update(s, frames[0].contact, frames[0].elapsed);
      CooldownCountsDown(s1, frames[1..]);
    }
  }

  lemma {:induction false} TotalNonnegative(frames: seq<Frame>)
    requires Forward(frames)
    ensures 0.0 <= Total(frames)
    decreases |frames|
  {
    if frames != [] {
      TotalNonnegative(frames[1..]);
    }
  }

  /**
   * A second Dash within dashCooldown of a successful one does nothing,
   * whatever frames ran in between.
   */
  lemma SecondDashIgnored(c: Config, s: State, elapsed: real, forward: Vec3, log: real -> real,
                          frames: seq<Frame>, elapsed2: real, forward2: Vec3, log2: real -> real)
    requires s.dashCooldownTimer <= 0.0 && BurstDefined(c, elapsed)
    requires Forward(frames) && Total(frames) < c.dashCooldown
    ensures var later := Frames(Dash(c, s, elapsed, forward, log), frames);
      0.0 < later.dashCooldownTimer &&
      Dash(c, later, elapsed2, forward2, log2) == later
  {
    CooldownCountsDown(Dash(c, s, elapsed, forward, log), frames);
  }

  /** Lockstep survives any run of per-frame ticks, whatever their elapsed times. */
  lemma {:induction false} FramesLockstep(s: State, frames: seq<Frame>)
    requires Lockstep(s)
    ensures Lockstep(Frames(s, frames))
    decreases |frames|
  {
    if frames != [] {
      var s1 := Update(s, frames[0].contact, frames[0].elapsed);
      UpdateLockstep(s, frames[0].contact, frames[0].elapsed);
      FramesLockstep(s1, frames[1..]);
    }
  }

  /**
   * When the dash lasts no longer than the cooldown, a second Dash after any
   * frames can take effect only once the first dash timer has run out.
   */
  lemma SecondDashAfterDuration(c: Config, s: State, elapsed: real, forward: Vec3, log: real -> real,
                                frames: seq<Frame>)
    requires c.dashDuration <= c.dashCooldown
    requires s.dashCooldownTimer <= 0.0 && BurstDefined(c, elapsed)
    ensures var later := Frames(Dash(c, s, elapsed, forward, log), frames);
      later.dashCooldownTimer <= 0.0 ==> later.dashTimer <= 0.0
  {
    FramesLockstep(Dash(c, s, elapsed, forward, log), frames);
  }

  /**
   * When the cooldown is shorter than a positive dash duration, a second Dash can restart a
   * dash whose timer is still running: after one frame as long as the
   * cooldown (none when the cooldown is not positive) the cooldown gate is
   * open while the dash timer is still positive and the dash on.
   */
  lemma ShortCooldownRestartsDash(c: Config, s: State, elapsed: real, forward: Vec3, log: real -> real,
                                  contact: bool)
    requires 0.0 < c.dashDuration && c.dashCooldown < c.dashDuration
    requires s.dashCooldownTimer <= 0.0 && BurstDefined(c, elapsed)
    ensures var frames := if 0.0 < c.dashCooldown then [Frame(contact, c.dashCooldown)] else [];
      var later := Frames(Dash(c, s, elapsed, forward, log), frames);
      later.dashCooldownTimer <= 0.0 && later.dashTimer > 0.0 && later.isDashing
  {
    assert [Frame(contact, c.dashCooldown)][1..] == [];
  }

  // ------------------------------------------------------------ physics ticks

  /** The state after n physics ticks of length e. */
  function FixedTicks(c: Config, s: State, e: real, n: nat): State
    requires DragDefined(c, e)
    decreases n
  {
    if n == 0 then s else FixedTicks(c, FixedUpdate(c, s, e).after, e, n - 1)
  }

  /**
   * In the air with gravity pointing down, vertical speed above the terminal
   * speed gravity / drag.y strictly decreases in a tick and stays above it.
   */
  lemma FallStep(c: Config, s: State, e: real)
    requires !s.isGrounded && c.gravity < 0.0 && 0.0 <= c.dragX && 0.0 <= c.dragY && 0.0 < e
    requires c.gravity < c.dragY * s.velocity.y
    ensures DragDefined(c, e)
    ensures FixedUpdate(c, s, e).after.velocity.y < s.velocity.y
    ensures c.gravity < c.dragY * FixedUpdate(c, s, e).after.velocity.y
  {
  }

  /**
   * Monotonic fall: from above the terminal speed (at rest, say), every
   * further physics tick in the air lowers the vertical speed.
   */
  lemma {:induction false} MonotonicFall(c: Config, s: State, e: real, n: nat)
    requires !s.isGrounded && c.gravity < 0.0 && 0.0 <= c.dragX && 0.0 <= c.dragY && 0.0 < e
    requires c.gravity < c.dragY * s.velocity.y
    ensures DragDefined(c, e)
    ensures FixedTicks(c, s, e, n + 1).velocity.y < FixedTicks(c, s, e, n).velocity.y
    decreases n
  {
    FallStep(c, s, e);
    if n > 0 {
      MonotonicFall(c, FixedUpdate(c, s, e).after, e, n - 1);
    }
  }

  /**
   * In the air, a tick shrinks the distance to the terminal speed
   * gravity / drag.y by the factor 1 + drag.y * e.
   */
  lemma TerminalApproach(c: Config, s: State, e: real)
    requires DragDefined(c, e) && c.dragY != 0.0
    requires !(s.isGrounded && s.velocity.y < 0.0)
    ensures var terminal := c.gravity / c.dragY;
      (FixedUpdate(c, s, e).after.velocity.y - terminal) * (1.0 + c.dragY * e) == s.velocity.y - terminal
  {
  }

  /**
   * A flip writes the rotation once: the tick after a physics tick flips
   * nothing, since drag keeps the sign of the horizontal speed.
   */
  lemma NoSecondFlip(c: Config, s: State, e: real)
    requires DragDefined(c, e) && 0.0 <= c.dragX * e
    ensures !FixedUpdate(c, FixedUpdate(c, s, e).after, e).flipped
  {
  }

  // ---------------------------------------------------------------- intents

  /** SetHorizontalSpeed called n times with the same input. */
  function RepeatInput(c: Config, s: State, input: real, n: nat): State
    decreases n
  {
    if n == 0 then s else RepeatInput(c, SetHorizontalSpeed(c, s, input), input, n - 1)
  }

  /**
   * Pushing right with input moveSpeed from a standstill or slower rightward
   * motion reaches exactly moveSpeed after one call and never exceeds it.
   */
  lemma {:induction false} RepeatedInputSaturates(c: Config, s: State, n: nat)
    requires !s.isDashing && 0.0 <= c.moveSpeed && 0.0 <= s.velocity.x
    requires 0 < n
    ensures RepeatInput(c, s, c.moveSpeed, n).velocity.x == c.moveSpeed
    ensures RepeatInput(c, s, c.moveSpeed, n) == s.(velocity := s.velocity.(x := c.moveSpeed))
    decreases n
  {
    var s1 := SetHorizontalSpeed(c, s, c.moveSpeed);
    if n > 1 {
      RepeatedInputSaturates(c, s1, n - 1);
    }
  }
}
