/**
 * The numeric rules of the player's motion (src/entities/player/PlayerState.js,
 * src/entities/player/PlayerJumpingState.js). The tuning constants live in a
 * configuration file that is not part of this model; they are a `Config`
 * value, and the sign assumptions the game relies on are `ValidConfig`.
 */
module Physics {

  datatype Config = Config(
    acceleration: real,
    deceleration: real,
    maxSpeed: real,
    gravity: real,
    maxFallSpeed: real,
    jumpPower: real,
    maxJumpTime: real,
    skidThreshold: real)

  /** Speeds and times are positive; a jump pushes upwards (negative y). */
  predicate ValidConfig(c: Config)
  {
    c.acceleration > 0.0 && c.deceleration > 0.0 && c.maxSpeed > 0.0
    && c.gravity > 0.0 && c.maxFallSpeed > 0.0
    && c.jumpPower < 0.0 && c.maxJumpTime > 0.0 && c.skidThreshold >= 0.0
  }

  /** The keyboard as sampled for one frame: keys held, and the jump key pressed this frame. */
  datatype Input = Input(aHeld: bool, dHeld: bool, spaceHeld: bool, spacePressed: bool)

  /** Horizontal speeds below this are treated as standing still. */
  const RestSpeed: real := 0.1

  function Abs(r: real): (a: real)
    ensures 0.0 <= a && (a == r || a == -r)
  {
    if r < 0.0 then -r else r
  }

  function Min(a: real, b: real): (m: real)
    ensures m <= a && m <= b && (m == a || m == b)
  {
    if a <= b then a else b
  }

  function Max(a: real, b: real): (m: real)
    ensures a <= m && b <= m && (m == a || m == b)
  {
    if a >= b then a else b
  }

  /** `Math.floor(a / d)`: the tile index that holds coordinate `a`. */
  function FloorDiv(a: real, d: int): int
    requires d > 0
  {
    (a / d as real).Floor
  }

  /** The cell `FloorDiv` picks is the one that holds `a`. */
  lemma FloorDivBounds(a: real, d: int, q: int)
    requires d > 0 && q == FloorDiv(a, d)
    ensures (q * d) as real <= a < ((q + 1) * d) as real
  {
    var dr := d as real;
    DivTimes(a, dr);
    ScaledFloor(a / dr, dr, q, a);
    CastProduct(q, d);
    CastProduct(q + 1, d);
  }

  lemma DivTimes(a: real, k: real)
    requires k > 0.0
    ensures (a / k) * k == a
  {
  }

  lemma ScaledFloor(e: real, k: real, q: int, a: real)
    requires k > 0.0 && q as real <= e < (q + 1) as real && e * k == a
    ensures (q as real) * k <= a < ((q + 1) as real) * k
  {
    ScaleLe(q as real, e, k);
    ScaleLt(e, (q + 1) as real, k);
  }

  lemma CastProduct(m: int, n: int)
    ensures (m * n) as real == m as real * n as real
  {
  }

  lemma ScaleLe(lo: real, hi: real, k: real)
    requires lo <= hi && k > 0.0
    ensures lo * k <= hi * k
  {
    assert (hi - lo) * k >= 0.0;
  }

  lemma ScaleLt(lo: real, hi: real, k: real)
    requires lo < hi && k > 0.0
    ensures lo * k < hi * k
  {
    assert (hi - lo) * k > 0.0;
  }

  /** The distance covered at speed `v` in `dt` seconds. */
  function Travel(v: real, dt: real): real
  {
    v * dt
  }

  /** `Math.round`: the nearest integer, halves rounding up. */
  function Round(r: real): (n: int)
    ensures r - 0.5 < n as real <= r + 0.5
  {
    (r + 0.5).Floor
  }

  /** `moveRight`: one step of acceleration, capped at the top speed. */
  function AccelerateRight(vx: real, cfg: Config): (r: real)
    ensures r <= cfg.maxSpeed && r <= vx + cfg.acceleration
    ensures r == vx + cfg.acceleration || r == cfg.maxSpeed
  {
    Min(vx + cfg.acceleration, cfg.maxSpeed)
  }

  /** `moveLeft`: the mirror image of `AccelerateRight`. */
  function AccelerateLeft(vx: real, cfg: Config): (r: real)
    ensures r >= -cfg.maxSpeed && r >= vx - cfg.acceleration
    ensures r == vx - cfg.acceleration || r == -cfg.maxSpeed
  {
    Max(vx - cfg.acceleration, -cfg.maxSpeed)
  }

  /** `slowDown`: moves the speed towards zero by the deceleration, never past it. */
  function Decelerate(vx: real, cfg: Config): (r: real)
    ensures vx > 0.0 ==> r >= 0.0
    ensures vx < 0.0 ==> r <= 0.0
    ensures vx == 0.0 ==> r == 0.0
    ensures vx != 0.0 ==> Abs(r) == Max(0.0, Abs(vx) - cfg.deceleration)
    ensures cfg.deceleration >= 0.0 ==> Abs(r) <= Abs(vx)
  {
    if vx > 0.0 then Max(0.0, vx - cfg.deceleration)
    else if vx < 0.0 then Min(0.0, vx + cfg.deceleration)
    else vx
  }

  /** A speed too small to matter becomes exactly zero. */
  function SnapToRest(vx: real): (r: real)
    ensures r == 0.0 || Abs(r) >= RestSpeed
    ensures r == vx || (r == 0.0 && Abs(vx) < RestSpeed)
  {
    if Abs(vx) < RestSpeed then 0.0 else vx
  }

  datatype Heading = Heading(vx: real, facingRight: bool)

  /** `handleHorizontalMovement`: steer by the held keys, then snap to rest. */
  function HorizontalControl(vx: real, facingRight: bool, input: Input, cfg: Config): (h: Heading)
    ensures h.vx == 0.0 || Abs(h.vx) >= RestSpeed
    ensures input.aHeld == input.dHeld ==> h.facingRight == facingRight
    ensures input.aHeld && !input.dHeld ==> !h.facingRight
    ensures !input.aHeld && input.dHeld ==> h.facingRight
    ensures ValidConfig(cfg) && input.aHeld && !input.dHeld ==> h.vx <= Max(vx, 0.0)
    ensures ValidConfig(cfg) && !input.aHeld && input.dHeld ==> h.vx >= Min(vx, 0.0)
    ensures ValidConfig(cfg) && Abs(vx) <= cfg.maxSpeed ==> Abs(h.vx) <= cfg.maxSpeed
    ensures ValidConfig(cfg) && input.aHeld == input.dHeld ==> Abs(h.vx) <= Abs(vx)
  {
    var steered :=
      if input.aHeld && input.dHeld then Heading(Decelerate(vx, cfg), facingRight)
      else if input.aHeld then Heading(AccelerateLeft(vx, cfg), false)
      else if input.dHeld then Heading(AccelerateRight(vx, cfg), true)
      else Heading(Decelerate(vx, cfg), facingRight);
    steered.(vx := SnapToRest(steered.vx))
  }

  /** `applyGravity` in the air: speed up downwards, capped at the maximum fall speed. */
  function Fall(vy: real, dt: real, cfg: Config): (r: real)
    ensures r <= cfg.maxFallSpeed && r <= vy + cfg.gravity * dt
    ensures cfg.gravity >= 0.0 && dt >= 0.0 && vy <= cfg.maxFallSpeed ==> vy <= r
  {
    assert cfg.gravity >= 0.0 && dt >= 0.0 ==> cfg.gravity * dt >= 0.0;
    Min(vy + cfg.gravity * dt, cfg.maxFallSpeed)
  }

  /** The Jumping state's `handleInput`: letting go of jump while rising halves the upward speed. */
  function JumpRelease(vy: real, spaceHeld: bool): (r: real)
    ensures spaceHeld || vy >= 0.0 ==> r == vy
    ensures !spaceHeld && vy < 0.0 ==> vy < r < 0.0 && r * 2.0 == vy
  {
    if !spaceHeld && vy < 0.0 then vy * 0.5 else vy
  }

  /** The upward speed after `n` consecutive released frames (nothing else acting). */
  function ReleasedFor(vy: real, n: nat): real
  {
    if n == 0 then vy else JumpRelease(ReleasedFor(vy, n - 1), false)
  }

  function Pow2(n: nat): (p: real)
    ensures p >= 1.0
  {
    if n == 0 then 1.0 else 2.0 * Pow2(n - 1)
  }

  /** The halving happens again on every released frame, and the player keeps rising. */
  lemma {:induction false} ReleaseRepeats(vy: real, n: nat)
    requires vy < 0.0
    ensures ReleasedFor(vy, n) * Pow2(n) == vy
    ensures vy <= ReleasedFor(vy, n) < 0.0
  {
    if n > 0 {
      ReleaseRepeats(vy, n - 1);
      var prev := ReleasedFor(vy, n - 1);
      assert ReleasedFor(vy, n) * 2.0 == prev;
      calc {
        ReleasedFor(vy, n) * Pow2(n);
        ReleasedFor(vy, n) * (2.0 * Pow2(n - 1));
        (ReleasedFor(vy, n) * 2.0) * Pow2(n - 1);
        prev * Pow2(n - 1);
      }
    }
  }

  /** The upward speed a held jump gets after `jumpTime` seconds: full power fading to zero. */
  function JumpBoost(jumpTime: real, cfg: Config): (r: real)
    requires cfg.maxJumpTime != 0.0
    ensures ValidConfig(cfg) && 0.0 <= jumpTime <= cfg.maxJumpTime ==> cfg.jumpPower <= r <= 0.0
    ensures ValidConfig(cfg) && jumpTime == 0.0 ==> r == cfg.jumpPower
    ensures jumpTime == cfg.maxJumpTime ==> r == 0.0
  {
    if ValidConfig(cfg) && 0.0 <= jumpTime <= cfg.maxJumpTime then
      FadeBounds(jumpTime, cfg);
      cfg.jumpPower * (1.0 - jumpTime / cfg.maxJumpTime)
    else
      cfg.jumpPower * (1.0 - jumpTime / cfg.maxJumpTime)
  }

  lemma FadeBounds(jumpTime: real, cfg: Config)
    requires ValidConfig(cfg) && 0.0 <= jumpTime <= cfg.maxJumpTime
    ensures cfg.jumpPower <= cfg.jumpPower * (1.0 - jumpTime / cfg.maxJumpTime) <= 0.0
  {
    var f := 1.0 - jumpTime / cfg.maxJumpTime;
    assert jumpTime / cfg.maxJumpTime <= 1.0 by {
      assert jumpTime / cfg.maxJumpTime * cfg.maxJumpTime == jumpTime;
    }
    assert 0.0 <= f <= 1.0;
    assert cfg.jumpPower * f - cfg.jumpPower == cfg.jumpPower * (f - 1.0);
  }

  /** The longer the jump key is held, the weaker the boost: the curve rises monotonically towards zero. */
  lemma JumpBoostMonotone(t1: real, t2: real, cfg: Config)
    requires ValidConfig(cfg) && 0.0 <= t1 <= t2 <= cfg.maxJumpTime
    ensures JumpBoost(t1, cfg) <= JumpBoost(t2, cfg)
  {
    var m := cfg.maxJumpTime;
    assert t2 / m - t1 / m == (t2 - t1) / m;
    assert 0.0 <= (t2 - t1) / m;
    assert JumpBoost(t2, cfg) - JumpBoost(t1, cfg) == -cfg.jumpPower * ((t2 - t1) / m);
  }

  datatype Jump = Jump(vy: real, jumpTime: real)

  /** `handleJumping`: while jump is held and time remains, the boost curve sets the speed; otherwise the jump timer resets. */
  function HoldJump(j: Jump, spaceHeld: bool, dt: real, cfg: Config): (r: Jump)
    requires cfg.maxJumpTime != 0.0
    ensures spaceHeld && j.jumpTime <= cfg.maxJumpTime ==> r.jumpTime == j.jumpTime + dt && r.vy == JumpBoost(j.jumpTime, cfg)
    ensures !(spaceHeld && j.jumpTime <= cfg.maxJumpTime) ==> r == Jump(j.vy, 0.0)
    ensures ValidConfig(cfg) && 0.0 <= j.jumpTime && spaceHeld && j.jumpTime <= cfg.maxJumpTime
            ==> cfg.jumpPower <= r.vy <= 0.0
  {
    if spaceHeld && j.jumpTime <= cfg.maxJumpTime then Jump(JumpBoost(j.jumpTime, cfg), j.jumpTime + dt)
    else Jump(j.vy, 0.0)
  }
}
