/*
 * The locomotion rules of PlayerMovement as values and pure step functions.
 *
 * Each function below is the effect of one method of the component on the
 * component's mutable state: DashTimers, Update, the three parts of
 * FixedUpdate (ground snap or gravity, MoveCharacter with its Flip, AddDrag),
 * SetHorizontalSpeed, Jump and Dash. Floats are modelled as reals; the
 * engine's Time.deltaTime is the explicit `elapsed` argument.
 */
module Locomotion {

  datatype Option<T> = None | Some(value: T)

  /** A Unity Vector3. */
  datatype Vec3 = Vec3(x: real, y: real, z: real)

  const Zero := Vec3(0.0, 0.0, 0.0)

  function Add(a: Vec3, b: Vec3): Vec3 {
    Vec3(a.x + b.x, a.y + b.y, a.z + b.z)
  }

  /** `v * k`: a vector times a scalar. */
  function Times(v: Vec3, k: real): Vec3 {
    Vec3(v.x * k, v.y * k, v.z * k)
  }

  /** Vector3.Scale: the component-wise product. */
  function Scale(a: Vec3, b: Vec3): Vec3 {
    Vec3(a.x * b.x, a.y * b.y, a.z * b.z)
  }

  function Abs(r: real): real {
    if r < 0.0 then -r else r
  }

  /** The public, per-object tuning values of the component. */
  datatype Config = Config(
    moveSpeed: real,
    jumpHeight: real,
    dragX: real,
    dragY: real,
    gravity: real,
    dashDistance: real,
    dashCooldown: real,
    dashDuration: real)

  /** The values the component is declared with. */
  const Defaults := Config(3.0, 5.0, 0.25, 0.4, -20.0, 5.0, 1.0, 1.0)

  /**
   * With the declared values the fresh state is consistent and the drag
   * divisors are nonzero for every non-negative frame time.
   */
  lemma DefaultsWellDefined()
    ensures Inv(Defaults, Initial)
    ensures forall e :: 0.0 <= e ==> DragDefined(Defaults, e)
  {
  }

  /** The private mutable state: moveDirection, the two timers and the three flags. */
  datatype State = State(
    velocity: Vec3,
    dashTimer: real,
    dashCooldownTimer: real,
    isGrounded: bool,
    isFacingRight: bool,
    isDashing: bool)

  /** The state a fresh component starts in. */
  const Initial := State(Zero, 0.0, 0.0, false, true, false)

  /**
   * What every operation keeps: neither timer is above the value it was last
   * reset to, and a running dash timer means a dash is in progress. (The
   * converse fails: see Ticks.DashLifecycle.)
   */
  predicate Inv(c: Config, s: State) {
    s.dashTimer <= c.dashDuration &&
    s.dashCooldownTimer <= c.dashCooldown &&
    (s.dashTimer > 0.0 ==> s.isDashing)
  }

  lemma InitialInv(c: Config)
    requires 0.0 <= c.dashDuration && 0.0 <= c.dashCooldown
    ensures Inv(c, Initial)
  {
  }

  // ---------------------------------------------------------------- per frame

  /**
   * DashTimers: a running dash timer counts down; once it is not positive the
   * dash flag is cleared. The cooldown counts down while it is positive.
   * Neither timer is clamped at zero.
   */
  function DashTimers(s: State, elapsed: real): (r: State)
    ensures s.dashTimer > 0.0 ==> r.dashTimer == s.dashTimer - elapsed && r.isDashing == s.isDashing
    ensures s.dashTimer <= 0.0 ==> r.dashTimer == s.dashTimer && !r.isDashing
    ensures s.dashCooldownTimer > 0.0 ==> r.dashCooldownTimer == s.dashCooldownTimer - elapsed
    ensures s.dashCooldownTimer <= 0.0 ==> r.dashCooldownTimer == s.dashCooldownTimer
    ensures r.velocity == s.velocity && r.isGrounded == s.isGrounded && r.isFacingRight == s.isFacingRight
  {
    var t := if s.dashTimer > 0.0 then s.(dashTimer := s.dashTimer - elapsed)
             else if s.isDashing then s.(isDashing := false)
             else s;
    if t.dashCooldownTimer > 0.0 then t.(dashCooldownTimer := t.dashCooldownTimer - elapsed) else t
  }

  /** Update: cache the ground contact reported by the body, then run DashTimers. */
  function Update(s: State, contact: bool, elapsed: real): (r: State)
    ensures r.isGrounded == contact
    ensures r.velocity == s.velocity && r.isFacingRight == s.isFacingRight
    ensures s.dashTimer > 0.0 ==> r.dashTimer == s.dashTimer - elapsed && r.isDashing == s.isDashing
    ensures s.dashTimer <= 0.0 ==> r.dashTimer == s.dashTimer && !r.isDashing
    ensures r.dashCooldownTimer == if s.dashCooldownTimer > 0.0 then s.dashCooldownTimer - elapsed else s.dashCooldownTimer
  {
    DashTimers(s.(isGrounded := contact), elapsed)
  }

  lemma UpdateInv(c: Config, s: State, contact: bool, elapsed: real)
    requires Inv(c, s) && 0.0 <= elapsed
    ensures Inv(c, Update(s, contact, elapsed))
  {
  }

  // ------------------------------------------------------------- physics tick

  /**
   * The velocity FixedUpdate hands to MoveCharacter: resting on the ground
   * cancels downward speed, otherwise gravity accumulates; z is forced to 0.
   */
  function PreMove(c: Config, s: State, elapsed: real): (v: Vec3)
    ensures s.isGrounded && s.velocity.y < 0.0 ==> v.y == 0.0
    ensures !(s.isGrounded && s.velocity.y < 0.0) ==> v.y == s.velocity.y + c.gravity * elapsed
    ensures v.x == s.velocity.x && v.z == 0.0
  {
    var v := if s.isGrounded && s.velocity.y < 0.0 then s.velocity.(y := 0.0)
             else s.velocity.(y := s.velocity.y + c.gravity * elapsed);
    v.(z := 0.0)
  }

  /** The condition under which MoveCharacter calls Flip. */
  predicate NeedsFlip(x: real, facingRight: bool) {
    (x > 0.0 && !facingRight) || (x < 0.0 && facingRight)
  }

  /** The yaw that Flip writes to the transform for a facing. */
  function Yaw(facingRight: bool): int {
    if facingRight then 90 else -90
  }

  /**
   * MoveCharacter's conditional Flip: afterwards the facing agrees with the
   * sign of a nonzero horizontal speed; a zero speed keeps the facing.
   */
  function Face(s: State): (r: State)
    ensures r.isFacingRight != s.isFacingRight <==> NeedsFlip(s.velocity.x, s.isFacingRight)
    ensures s.velocity.x != 0.0 ==> (r.isFacingRight <==> s.velocity.x > 0.0)
    ensures s.velocity.x == 0.0 ==> r.isFacingRight == s.isFacingRight
    ensures r == s.(isFacingRight := r.isFacingRight)
  {
    if NeedsFlip(s.velocity.x, s.isFacingRight) then s.(isFacingRight := !s.isFacingRight) else s
  }

  /**
   * The "Speed" animator parameter, |x| / moveSpeed. A zero moveSpeed gives a
   * non-finite float, which is None here.
   */
  function SpeedParam(x: real, moveSpeed: real): (p: Option<real>)
    ensures p.Some? <==> moveSpeed != 0.0
    ensures p.Some? ==> p.value * moveSpeed == Abs(x)
    ensures p.Some? && 0.0 < moveSpeed ==> 0.0 <= p.value && (p.value <= 1.0 <==> Abs(x) <= moveSpeed)
  {
    if moveSpeed == 0.0 then None
    else
      var p := Abs(x) / moveSpeed;
      assert p * moveSpeed == Abs(x);
      Some(p)
  }

  /** The divisor 1 + drag * elapsed that AddDrag and the burst formula use is nonzero. */
  predicate Divisible(drag: real, elapsed: real) {
    1.0 + drag * elapsed != 0.0
  }

  /** One axis of AddDrag: divide by 1 + drag * elapsed. */
  function Damp(v: real, drag: real, elapsed: real): (r: real)
    requires Divisible(drag, elapsed)
    ensures r * (1.0 + drag * elapsed) == v
    ensures v == 0.0 ==> r == 0.0
    ensures 0.0 <= drag * elapsed ==> (0.0 < r <==> 0.0 < v) && (r < 0.0 <==> v < 0.0) && Abs(r) <= Abs(v)
  {
    var k := 1.0 + drag * elapsed;
    var r := v / k;
    assert r * k == v;
    DampBounds(v, k, r);
    r
  }

  lemma DampBounds(v: real, k: real, r: real)
    requires r * k == v
    ensures 1.0 <= k ==> (0.0 < r <==> 0.0 < v) && (r < 0.0 <==> v < 0.0) && Abs(r) <= Abs(v)
  {
  }

  /** The divisors AddDrag uses are nonzero. */
  predicate DragDefined(c: Config, elapsed: real) {
    Divisible(c.dragX, elapsed) && Divisible(c.dragY, elapsed)
  }

  /** AddDrag: horizontal and vertical speed are damped; nothing else changes. */
  function AddDrag(c: Config, s: State, elapsed: real): (r: State)
    requires DragDefined(c, elapsed)
    ensures r.velocity.x * (1.0 + c.dragX * elapsed) == s.velocity.x
    ensures r.velocity.y * (1.0 + c.dragY * elapsed) == s.velocity.y
    ensures r.velocity.z == s.velocity.z
    ensures r == s.(velocity := r.velocity)
  {
    s.(velocity := Vec3(Damp(s.velocity.x, c.dragX, elapsed), Damp(s.velocity.y, c.dragY, elapsed), s.velocity.z))
  }

  /** What one physics tick does: the new state and what it hands to the engine. */
  datatype PhysicsTick = PhysicsTick(after: State, displacement: Vec3, flipped: bool, speed: Option<real>)

  /** FixedUpdate: snap or gravity, zero z, MoveCharacter (move, flip, speed), AddDrag. */
  function FixedUpdate(c: Config, s: State, elapsed: real): (t: PhysicsTick)
    requires DragDefined(c, elapsed)
    ensures s.isGrounded && s.velocity.y < 0.0 ==> t.displacement.y == 0.0 && t.after.velocity.y == 0.0
    ensures var pre := if s.isGrounded && s.velocity.y < 0.0 then 0.0 else s.velocity.y + c.gravity * elapsed;
      t.after.velocity.y * (1.0 + c.dragY * elapsed) == pre &&
      t.displacement == Vec3(s.velocity.x * elapsed, pre * elapsed, 0.0)
    ensures t.after.velocity.x * (1.0 + c.dragX * elapsed) == s.velocity.x
    ensures t.after.velocity.z == 0.0
    ensures t.flipped <==> NeedsFlip(s.velocity.x, s.isFacingRight)
    ensures t.after.isFacingRight == (s.isFacingRight != t.flipped)
    ensures 0.0 <= c.dragX * elapsed && t.after.velocity.x != 0.0 ==> (t.after.isFacingRight <==> 0.0 < t.after.velocity.x)
    ensures t.speed.Some? <==> c.moveSpeed != 0.0
    ensures t.speed.Some? ==> t.speed.value * c.moveSpeed == Abs(s.velocity.x)
    ensures t.after.dashTimer == s.dashTimer && t.after.dashCooldownTimer == s.dashCooldownTimer
    ensures t.after.isDashing == s.isDashing && t.after.isGrounded == s.isGrounded
    ensures Inv(c, s) ==> Inv(c, t.after)
  {
    var v := PreMove(c, s, elapsed);
    var faced := Face(s.(velocity := v));
    PhysicsTick(AddDrag(c, faced, elapsed), Times(v, elapsed), faced.isFacingRight != s.isFacingRight,
                SpeedParam(v.x, c.moveSpeed))
  }

  // ---------------------------------------------------------------- intents

  /**
   * Mathf.Clamp: the value itself when within [lo, hi], otherwise the bound
   * it crossed.
   */
  function Clamp(v: real, lo: real, hi: real): (r: real)
    ensures lo <= hi ==> lo <= r <= hi
    ensures v < lo ==> r == lo
    ensures lo <= v && hi < v ==> r == hi
    ensures lo <= v <= hi ==> r == v
  {
    if v < lo then lo else if v > hi then hi else v
  }

  /**
   * SetHorizontalSpeed: ignored during a dash; otherwise the input is added
   * to the horizontal speed, which is then kept within [-moveSpeed, moveSpeed].
   */
  function SetHorizontalSpeed(c: Config, s: State, input: real): (r: State)
    ensures s.isDashing ==> r == s
    ensures !s.isDashing ==> r == s.(velocity := s.velocity.(x := r.velocity.x))
    ensures !s.isDashing && 0.0 <= c.moveSpeed ==> -c.moveSpeed <= r.velocity.x <= c.moveSpeed
    ensures !s.isDashing && -c.moveSpeed <= s.velocity.x + input <= c.moveSpeed ==> r.velocity.x == s.velocity.x + input
    ensures !s.isDashing && r.velocity.x < s.velocity.x + input ==> r.velocity.x == c.moveSpeed
    ensures !s.isDashing && s.velocity.x + input < r.velocity.x ==> r.velocity.x == -c.moveSpeed
    ensures !s.isDashing ==> r.velocity.x == Clamp(s.velocity.x + input, -c.moveSpeed, c.moveSpeed)
    ensures Inv(c, s) ==> Inv(c, r)
  {
    if s.isDashing then s
    else s.(velocity := s.velocity.(x := Clamp(s.velocity.x + input, -c.moveSpeed, c.moveSpeed)))
  }

  /** In a consistent state, horizontal input has no effect while a dash timer runs. */
  lemma InputIgnoredWhileDashing(c: Config, s: State, input: real)
    requires Inv(c, s) && s.dashTimer > 0.0
    ensures SetHorizontalSpeed(c, s, input) == s
  {
  }

  /** Jump: ignored in the air; on the ground adds jumpHeight to the vertical speed. */
  function Jump(c: Config, s: State): (r: State)
    ensures !s.isGrounded ==> r == s
    ensures s.isGrounded ==> r.velocity.y == s.velocity.y + c.jumpHeight
    ensures r == s.(velocity := s.velocity.(y := r.velocity.y))
    ensures Inv(c, s) ==> Inv(c, r)
  {
    if !s.isGrounded then s
    else s.(velocity := s.velocity.(y := s.velocity.y + c.jumpHeight))
  }

  /** The divisions of the burst formula are defined at this elapsed time. */
  predicate BurstDefined(c: Config, elapsed: real) {
    elapsed != 0.0 && DragDefined(c, elapsed)
  }

  /** Log(1 / (elapsed * drag + 1)) / -elapsed, with the logarithm supplied. */
  function DecayRate(drag: real, elapsed: real, log: real -> real): real
    requires elapsed != 0.0 && Divisible(drag, elapsed)
  {
    log(1.0 / (1.0 + drag * elapsed)) / -elapsed
  }

  /**
   * The dash burst: forward scaled component-wise by dashDistance times the
   * per-axis decay rates, horizontal rate from drag.x, depth rate from drag.y,
   * and no vertical part.
   */
  function Burst(c: Config, elapsed: real, forward: Vec3, log: real -> real): (b: Vec3)
    requires BurstDefined(c, elapsed)
    ensures b.y == 0.0
    ensures b.x == forward.x * (c.dashDistance * DecayRate(c.dragX, elapsed, log))
    ensures b.z == forward.z * (c.dashDistance * DecayRate(c.dragY, elapsed, log))
    ensures c.dragX == 0.0 && log(1.0) == 0.0 ==> b.x == 0.0
  {
    Scale(forward, Times(Vec3(DecayRate(c.dragX, elapsed, log), 0.0, DecayRate(c.dragY, elapsed, log)), c.dashDistance))
  }

  /**
   * Dash: ignored while the cooldown runs; otherwise adds the burst to the
   * velocity, starts a dash and restarts both timers. Whether a dash is
   * already in progress plays no part.
   */
  function Dash(c: Config, s: State, elapsed: real, forward: Vec3, log: real -> real): (r: State)
    requires s.dashCooldownTimer <= 0.0 ==> BurstDefined(c, elapsed)
    ensures s.dashCooldownTimer > 0.0 ==> r == s
    ensures s.dashCooldownTimer <= 0.0 ==>
      r.isDashing && r.dashTimer == c.dashDuration && r.dashCooldownTimer == c.dashCooldown &&
      r.velocity == Add(s.velocity, Burst(c, elapsed, forward, log)) &&
      r.velocity.y == s.velocity.y &&
      r.isGrounded == s.isGrounded && r.isFacingRight == s.isFacingRight
    ensures Inv(c, s) ==> Inv(c, r)
  {
    if s.dashCooldownTimer > 0.0 then s
    else State(Add(s.velocity, Burst(c, elapsed, forward, log)), c.dashDuration, c.dashCooldown,
               s.isGrounded, s.isFacingRight, true)
  }

  // ------------------------------------------------------------- dash gating

  /**
   * A running dash timer never outlasts the cooldown. Dash checks only the
   * cooldown; under this predicate a Dash that takes effect finds the
   * previous dash timer run out.
   */
  predicate Lockstep(s: State) {
    s.dashTimer > 0.0 ==> s.dashCooldownTimer >= s.dashTimer
  }

  lemma InitialLockstep()
    ensures Lockstep(Initial)
  {
  }

  /** A Dash that passes the cooldown gate in a lockstep state finds the dash timer at or below 0. */
  lemma DashAfterDuration(s: State)
    requires Lockstep(s) && s.dashCooldownTimer <= 0.0
    ensures s.dashTimer <= 0.0
  {
  }

  /** The per-frame tick keeps Lockstep for any elapsed time: both timers drop by the same amount. */
  lemma UpdateLockstep(s: State, contact: bool, elapsed: real)
    requires Lockstep(s)
    ensures Lockstep(Update(s, contact, elapsed))
  {
  }

  /**
   * The other steps keep Lockstep too; Dash keeps it when the dash lasts no
   * longer than the cooldown.
   */
  lemma LockstepKept(c: Config, s: State, elapsed: real, input: real, forward: Vec3, log: real -> real)
    requires Lockstep(s)
    ensures DragDefined(c, elapsed) ==> Lockstep(FixedUpdate(c, s, elapsed).after)
    ensures Lockstep(SetHorizontalSpeed(c, s, input)) && Lockstep(Jump(c, s))
    ensures c.dashDuration <= c.dashCooldown && (s.dashCooldownTimer <= 0.0 ==> BurstDefined(c, elapsed)) ==>
      Lockstep(Dash(c, s, elapsed, forward, log))
  {
  }
}
