# PlayerMovement locomotion, modelled in Dafny

This project models the locomotion state machine of the Unity component
`PlayerMovement` (ProjectAlpha). The component holds one velocity
(`moveDirection`), two countdown timers (`dashTimer`, `dashCooldownTimer`)
and three flags (`isGrounded`, `isFacingRight`, `isDashing`). Five entry
points change them:

- the per-frame tick `Update`, which caches ground contact and runs `DashTimers`;
- the physics tick `FixedUpdate`: ground snap or gravity, `z := 0`,
  `MoveCharacter` with its conditional `Flip`, then `AddDrag`;
- the intents `SetHorizontalSpeed`, `Jump` and `Dash`.

Files:

- `locomotion.dfy` (module `Locomotion`): the tuning values (`Config`), the
  state (`State`), and a pure step function per state-changing source
  method. `MoveCharacter` and `Flip` have no step function of their own:
  their effect on the state is `Face`, and the "Speed" value they report is
  `SpeedParam`, both part of the `FixedUpdate` step. Each function's
  contract states what the source does to the state.
- `ticks.dfy` (module `Ticks`): runs of repeated ticks and the properties
  that need several calls. These cover how a dash ends, how the cooldown
  blocks a second dash, how a body in the air falls, and how repeated input
  saturates at `moveSpeed`.
- `player_movement.dfy` (module `Player`): the class `PlayerMovement`. Its
  fields mirror the component's fields, and its methods update them in place.
  The `ensures` of `Update`, `DashTimers`, `FixedUpdate`, `AddDrag`,
  `SetHorizontalSpeed`, `Jump` and `Dash` equate `Snapshot()` with the step
  function of the same name applied to `old(Snapshot())`. `MoveCharacter`
  equates it with `Face` of the old state, and `Flip` states its record
  update (the facing toggled, nothing else changed) directly. Ghost logs record what the component hands to the
  engine: animator writes, rotation writes, and displacements passed to
  `CharacterController.Move`.

`Time.deltaTime` is the explicit argument `elapsed`.
`characterController.isGrounded` is the `contact` argument of `Update`.
Floats are `real`.

Three facts about the timers shape what the model proves:

- Neither timer is clamped at zero. Lines 84 and 93 subtract `elapsed`
  unconditionally while the timer is positive, so a timer ends at or below
  zero, usually below. `Ticks.DashLifecycle` states the exact value.
- `isDashing` stays true on the frame where `dashTimer` first becomes ≤ 0
  and is cleared on the next frame (lines 82-89). So `isDashing ⇒
  dashTimer > 0` does not hold; the invariant proved is `dashTimer > 0 ⇒
  isDashing`, as part of `Locomotion.Inv`.
- After the expiry frame n the dash timer is `dashDuration - n * elapsed`,
  which is 0 only when `dashDuration` is a multiple of `elapsed`.

`Locomotion.Inv` also bounds each timer by its reset value. What a caller
gains from it is `Locomotion.InputIgnoredWhileDashing`: in a valid state,
horizontal input is ignored for as long as the dash timer runs, so a dash
cannot be steered before its timer expires. `Valid()` is `Inv` of the
class's fields. The constructor establishes it for non-negative durations.
`FixedUpdate`, `AddDrag`, `MoveCharacter`, `Flip`, `SetHorizontalSpeed`,
`Jump` and `Dash` keep it unconditionally. `Update` and `DashTimers` keep it
for `elapsed ≥ 0`: a negative elapsed time raises a positive timer, which
can take it above its reset value.

`Dash` checks only the cooldown timer (line 168), although the comment
above it (line 164) says a dash starts only once the previous dash duration
is over. For a positive `dashDuration` that holds exactly when
`dashDuration ≤ dashCooldown`, as with the declared values 1 and 1. `Locomotion.Lockstep` says that a running dash
timer is never longer than the cooldown timer. Every step keeps it, and
`Dash` keeps it when `dashDuration ≤ dashCooldown`. Under it, a `Dash` that
takes effect finds the dash timer at or below 0 (`Ticks.SecondDashAfterDuration`).
Even then the restart can fall on the expiry frame, while `isDashing` is
still true. Conversely, when `dashCooldown < dashDuration` and `dashDuration`
is positive, one frame as long as the cooldown (none when the cooldown is not
positive) after a dash opens the cooldown gate while the dash timer is still
positive and the dash on, so a second `Dash` restarts the running dash
(`Ticks.ShortCooldownRestartsDash`).

## Model

| member | source | states |
|---|---|---|
| Locomotion.DashTimers | ProjectAlpha/Assets/Scripts/Character/PlayerMovement.cs:80-95 | a positive dash timer drops by exactly `elapsed` and keeps `isDashing`; a timer ≤ 0 is untouched and `isDashing` ends false; the cooldown drops by `elapsed` exactly when positive; velocity, contact and facing unchanged |
| Locomotion.Update | ProjectAlpha/Assets/Scripts/Character/PlayerMovement.cs:53-59 | `isGrounded` becomes the supplied contact; the timer rules of DashTimers hold relative to the old state; velocity and facing unchanged |
| Locomotion.UpdateInv | ProjectAlpha/Assets/Scripts/Character/PlayerMovement.cs:80-95 | with `elapsed ≥ 0` the per-frame tick keeps both timers at or below their reset values and keeps `dashTimer > 0 ⇒ isDashing` |
| Locomotion.DefaultsWellDefined | ProjectAlpha/Assets/Scripts/Character/PlayerMovement.cs:15-23 | with the declared tuning values the initial state satisfies the invariant and both drag divisors are nonzero for every `elapsed ≥ 0` |
| Locomotion.InitialInv | ProjectAlpha/Assets/Scripts/Character/PlayerMovement.cs:29-42 | the initial field values (timers 0, not dashing, facing right) satisfy the invariant when the durations are non-negative |
| Locomotion.PreMove | ProjectAlpha/Assets/Scripts/Character/PlayerMovement.cs:63-72 | grounded with downward speed ⇒ vertical speed 0; otherwise vertical speed gains `gravity * elapsed`; `z == 0`; x unchanged |
| Locomotion.Face | ProjectAlpha/Assets/Scripts/Character/PlayerMovement.cs:116-120 | facing toggles exactly when `(x > 0 && !facingRight) \|\| (x < 0 && facingRight)`; afterwards a nonzero x has the sign of the facing; x == 0 keeps the facing; nothing else changes |
| Locomotion.SpeedParam | ProjectAlpha/Assets/Scripts/Character/PlayerMovement.cs:122 | the "Speed" parameter exists exactly when `moveSpeed ≠ 0`, and then `Speed * moveSpeed == \|x\|`; for positive moveSpeed it is ≥ 0 and ≤ 1 exactly when `\|x\| ≤ moveSpeed` |
| Locomotion.Damp | ProjectAlpha/Assets/Scripts/Character/PlayerMovement.cs:103-104 | `r * (1 + drag * elapsed) == v`; with `drag * elapsed ≥ 0` the sign of v is preserved and `\|r\| ≤ \|v\|` |
| Locomotion.AddDrag | ProjectAlpha/Assets/Scripts/Character/PlayerMovement.cs:101-105 | `x' * (1 + drag.x * elapsed) == x`, `y' * (1 + drag.y * elapsed) == y`; z and all timers and flags unchanged |
| Locomotion.FixedUpdate | ProjectAlpha/Assets/Scripts/Character/PlayerMovement.cs:61-75 | ground snap makes the displacement's and the new vertical speed 0; otherwise `y' * (1 + drag.y * elapsed) == y + gravity * elapsed`; displacement is the pre-move velocity times `elapsed` with z 0; `z' == 0`; flip exactly on a sign mismatch, after which a nonzero x' matches the facing; Speed parameter from the pre-drag x; timers and other flags unchanged; the invariant is kept |
| Locomotion.Clamp | ProjectAlpha/Assets/Scripts/Character/PlayerMovement.cs:145 | below `lo` gives `lo`; otherwise above `hi` gives `hi`; otherwise the value itself; within `[lo, hi]` when `lo ≤ hi` |
| Locomotion.SetHorizontalSpeed | ProjectAlpha/Assets/Scripts/Character/PlayerMovement.cs:140-146 | while dashing the whole state is unchanged; otherwise only x changes, to `x + input` when that lies in `[-moveSpeed, moveSpeed]` and to the crossed bound otherwise, so `-moveSpeed ≤ x' ≤ moveSpeed` for `moveSpeed ≥ 0`; for every `moveSpeed`, negative included, x' is `Clamp(x + input, -moveSpeed, moveSpeed)` |
| Locomotion.InputIgnoredWhileDashing | ProjectAlpha/Assets/Scripts/Character/PlayerMovement.cs:140-143 | in a state satisfying the invariant, while the dash timer is positive, `SetHorizontalSpeed` leaves the whole state unchanged for any input |
| Locomotion.Jump | ProjectAlpha/Assets/Scripts/Character/PlayerMovement.cs:153-160 | in the air nothing changes; on the ground y grows by exactly `jumpHeight`; nothing else changes, `isGrounded` included |
| Locomotion.Burst | ProjectAlpha/Assets/Scripts/Character/PlayerMovement.cs:171-175 | the burst has y component 0; its x and z are forward's components times `dashDistance` times the per-axis decay rate `log(1 / (elapsed * drag + 1)) / -elapsed`; zero drag on x gives no horizontal burst when `log(1) == 0` |
| Locomotion.Dash | ProjectAlpha/Assets/Scripts/Character/PlayerMovement.cs:166-179 | with a running cooldown nothing changes; otherwise the burst is added, y is unchanged, `isDashing`, `dashTimer == dashDuration`, `dashCooldownTimer == dashCooldown`, contact and facing unchanged |
| Locomotion.InitialLockstep | ProjectAlpha/Assets/Scripts/Character/PlayerMovement.cs:31-42 | the initial timers (both 0) satisfy Lockstep: a running dash timer is never above the cooldown timer |
| Locomotion.DashAfterDuration | ProjectAlpha/Assets/Scripts/Character/PlayerMovement.cs:164-169 | in a Lockstep state, passing the cooldown gate implies the previous dash timer is at or below 0, as the comment on Dash promises |
| Locomotion.UpdateLockstep | ProjectAlpha/Assets/Scripts/Character/PlayerMovement.cs:80-95 | the per-frame tick keeps Lockstep for any elapsed time, negative included |
| Locomotion.LockstepKept | ProjectAlpha/Assets/Scripts/Character/PlayerMovement.cs:61-179 | FixedUpdate, SetHorizontalSpeed and Jump keep Lockstep; Dash keeps it when `dashDuration ≤ dashCooldown` |
| Ticks.FramesKeepVelocity | ProjectAlpha/Assets/Scripts/Character/PlayerMovement.cs:53-59 | any run of per-frame ticks leaves the velocity and the facing as they were |
| Ticks.FramesInv | ProjectAlpha/Assets/Scripts/Character/PlayerMovement.cs:80-95 | the invariant holds across any run of per-frame ticks with non-negative elapsed times |
| Ticks.TimerCountsDown | ProjectAlpha/Assets/Scripts/Character/PlayerMovement.cs:82-85 | while the dash timer is positive at each frame start, k frames of length e leave it at `t - k * e` with `isDashing` unchanged |
| Ticks.ActiveBeforeExpiry | ProjectAlpha/Assets/Scripts/Character/PlayerMovement.cs:82-85 | before the first frame at which the timer is ≤ 0, the timer is positive and the dash is on |
| Ticks.ExpiresAt | ProjectAlpha/Assets/Scripts/Character/PlayerMovement.cs:82-89 | at the first frame n with timer ≤ 0, `isDashing` is still true and the timer is `t - n * e`; one frame later `isDashing` is false |
| Ticks.LastFrame | ProjectAlpha/Assets/Scripts/Character/PlayerMovement.cs:86-89 | a frame that starts with the dash timer ≤ 0 ends with `isDashing` false, whatever the contact and elapsed time |
| Ticks.DashLifecycle | ProjectAlpha/Assets/Scripts/Character/PlayerMovement.cs:80-95 | after a successful Dash with `dashDuration > 0` and frames of constant `e > 0`: for frames before the expiry frame n the timer is positive and the dash on; at n the timer is `dashDuration - n * e ≤ 0` and the dash still on; at n + 1 the dash is over |
| Ticks.ExpiryFrame | ProjectAlpha/Assets/Scripts/Character/PlayerMovement.cs:82 | the first frame count n at which a timer starting at t stops being positive exists: `t - n * e ≤ 0` and `t - (n - 1) * e > 0` when n > 0 |
| Ticks.CooldownCountsDown | ProjectAlpha/Assets/Scripts/Character/PlayerMovement.cs:91-94 | while the frames' total time stays below the cooldown, the cooldown drops by exactly that total |
| Ticks.SecondDashIgnored | ProjectAlpha/Assets/Scripts/Character/PlayerMovement.cs:166-169 | a second Dash less than `dashCooldown` of frame time after a successful one leaves the state unchanged |
| Ticks.FramesLockstep | ProjectAlpha/Assets/Scripts/Character/PlayerMovement.cs:80-95 | Lockstep holds across any run of per-frame ticks |
| Ticks.SecondDashAfterDuration | ProjectAlpha/Assets/Scripts/Character/PlayerMovement.cs:164-178 | with `dashDuration ≤ dashCooldown`, after a successful Dash and any frames, a second Dash can pass the cooldown gate only once the first dash timer is at or below 0 |
| Ticks.ShortCooldownRestartsDash | ProjectAlpha/Assets/Scripts/Character/PlayerMovement.cs:164-178 | for any `dashCooldown < dashDuration` with `dashDuration > 0`, one frame of length `dashCooldown` after a successful Dash (no frame when `dashCooldown ≤ 0`) leaves the cooldown at or below 0 while the dash timer is positive and `isDashing` holds, so a second Dash restarts a running dash |
| Ticks.FallStep | ProjectAlpha/Assets/Scripts/Character/PlayerMovement.cs:67-70 | in the air with `gravity < 0`, non-negative drag and `e > 0`, a vertical speed above the terminal speed `gravity / drag.y` strictly decreases in one physics tick and stays above it |
| Ticks.MonotonicFall | ProjectAlpha/Assets/Scripts/Character/PlayerMovement.cs:61-75 | from above the terminal speed (for instance at rest), every further physics tick in the air strictly lowers the vertical speed |
| Ticks.TerminalApproach | ProjectAlpha/Assets/Scripts/Character/PlayerMovement.cs:61-75 | without the ground snap, one physics tick divides the distance to `gravity / drag.y` by `1 + drag.y * e` |
| Ticks.NoSecondFlip | ProjectAlpha/Assets/Scripts/Character/PlayerMovement.cs:112-123 | with non-negative drag, the physics tick after a physics tick never flips, so a sign change causes exactly one rotation write |
| Ticks.RepeatedInputSaturates | ProjectAlpha/Assets/Scripts/Character/PlayerMovement.cs:140-146 | repeated input of `moveSpeed` from rest or slower rightward motion gives exactly `x == moveSpeed` from the first call on; nothing else changes |
| Player.PlayerMovement.constructor | ProjectAlpha/Assets/Scripts/Character/PlayerMovement.cs:15-42 | a fresh component has the given tuning values, zero velocity, zero timers, is not grounded or dashing, faces right, has written nothing, and is valid for non-negative durations |
| Player.PlayerMovement.Update | ProjectAlpha/Assets/Scripts/Character/PlayerMovement.cs:53-59 | fields become `Locomotion.Update` of the old fields; one "Grounded" write with the contact value; validity kept for `elapsed ≥ 0` |
| Player.PlayerMovement.DashTimers | ProjectAlpha/Assets/Scripts/Character/PlayerMovement.cs:80-95 | fields become `Locomotion.DashTimers` of the old fields; nothing is written to the engine; validity kept for `elapsed ≥ 0` |
| Player.PlayerMovement.FixedUpdate | ProjectAlpha/Assets/Scripts/Character/PlayerMovement.cs:61-75 | fields become `Locomotion.FixedUpdate` of the old fields; exactly one displacement and one "Speed" write; a rotation write with the new yaw exactly when it flips; validity kept |
| Player.PlayerMovement.AddDrag | ProjectAlpha/Assets/Scripts/Character/PlayerMovement.cs:101-105 | fields become `Locomotion.AddDrag` of the old fields; validity kept |
| Player.PlayerMovement.MoveCharacter | ProjectAlpha/Assets/Scripts/Character/PlayerMovement.cs:112-123 | records `moveDirection * elapsed` as the displacement, applies `Locomotion.Face`, writes the "Speed" parameter, and writes a rotation exactly when it flips; validity kept |
| Player.PlayerMovement.Flip | ProjectAlpha/Assets/Scripts/Character/PlayerMovement.cs:129-133 | toggles the facing only, and writes yaw 90 when it now faces right and -90 otherwise; validity kept |
| Player.PlayerMovement.SetHorizontalSpeed | ProjectAlpha/Assets/Scripts/Character/PlayerMovement.cs:140-146 | fields become `Locomotion.SetHorizontalSpeed` of the old fields; validity kept |
| Player.PlayerMovement.Jump | ProjectAlpha/Assets/Scripts/Character/PlayerMovement.cs:153-160 | fields become `Locomotion.Jump` of the old fields; a "Jump" trigger is written exactly when grounded; validity kept |
| Player.PlayerMovement.Dash | ProjectAlpha/Assets/Scripts/Character/PlayerMovement.cs:166-179 | fields become `Locomotion.Dash` of the old fields; validity kept |

## Left out

- `Start` (lines 45-51) is not modelled: `GetComponent` and the `GameplayContext.SetPlayer` registration are engine wiring with no locomotion logic.
- The collision resolution of `characterController.Move` is a call into the engine and is not modelled. Only its argument is recorded in the `moves` log. Ground contact comes back as the `contact` argument of `Update`.
- `Mathf.Log` is the `log` argument of `Dash` and `transform.forward` is the `forward` argument. The model does not tie `forward` to the last yaw written by `Flip`.
- `Quaternion.Euler` is reduced to the yaw (90 or -90) recorded in the `rotations` log.
- The animator is reduced to the ordered log of the writes it receives.
- IEEE-754 rounding, infinities and NaN are not modelled. Arithmetic is on `real`.
- Locomotion.AddDrag, Locomotion.FixedUpdate, Ticks.FixedTicks, Player.PlayerMovement.AddDrag and Player.PlayerMovement.FixedUpdate: require `1 + drag * elapsed ≠ 0` on both axes (`DragDefined`). A zero divisor gives an infinite or NaN float, which `real` cannot represent.
- Locomotion.Dash, Locomotion.Burst and Player.PlayerMovement.Dash: `Burst` requires `elapsed ≠ 0` and nonzero drag divisors (`BurstDefined`), and both `Dash` members require the same when the cooldown has run out. The burst formula divides by both, and a float division by zero is not representable.
- Locomotion.SpeedParam: a zero `moveSpeed` gives `None` rather than the float infinity or NaN the engine would receive.
- Locomotion.Clamp: `Mathf.Clamp` is a Unity library function. The model follows Unity's documented behaviour: below the minimum gives the minimum, otherwise above the maximum gives the maximum.
- How many physics ticks the engine runs per frame is not modelled. `Update` and `FixedUpdate` are independent operations that a caller may interleave in any order.
- `dashDistance` enters only through the burst formula. `groundCheckDist` and `groundMask` are declared by the component but never read, so they are not modelled.
