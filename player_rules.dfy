/**
 * The player's state machine on values (the files under src/entities/player). A `Pose`
 * holds everything of the player that its states and its contact rules
 * change; each function below is one method of the source applied to a pose.
 * The class `World.Player` runs the same steps on its fields.
 */
module PlayerRules {
  import opened Wrappers
  import opened Physics
  import opened Collision
  import opened Creatures

  datatype StateName = Idling | Walking | Jumping | Falling | Skidding | Growing | Shrinking

  const SmallHeight: int := 24
  const BigHeight: int := 32
  /** How far the top edge moves when the player grows or shrinks. */
  const SizeShift: real := 8.0
  /** Seconds of invincibility after losing the big form. */
  const InvincibleFor: real := 2.0

  datatype Pose = Pose(
    body: Body,
    jumpTime: real,
    facingRight: bool,
    isBig: bool,
    // the Walking state object's own flags, kept between visits
    isMovingLeft: bool,
    isMovingRight: bool,
    state: StateName,
    isInvincible: bool,
    invincibilityTimer: real,
    isGrowing: bool)

  /**
   * `stateMachine.change(next)`: the old state's `exit` (which only swaps the
   * animation) and then the new state's `enter`.
   */
  function Change(p: Pose, next: StateName, cfg: Config): (r: Pose)
    ensures r.state == next
    ensures r.body.x == p.body.x && r.body.w == p.body.w && r.facingRight == p.facingRight
    ensures r.isMovingLeft == p.isMovingLeft && r.isMovingRight == p.isMovingRight
    ensures r.isInvincible == p.isInvincible && r.invincibilityTimer == p.invincibilityTimer
    ensures r.isGrowing == p.isGrowing
    ensures next != Growing && next != Shrinking ==> r.isBig == p.isBig
    ensures next == Idling ==> r.body == p.body.(vx := 0.0, vy := 0.0) && r.jumpTime == p.jumpTime
    ensures next == Walking ==> r.body == p.body.(onGround := true) && r.jumpTime == p.jumpTime
    ensures next == Jumping ==> r.body == p.body.(vy := cfg.jumpPower) && r.jumpTime == 0.0
    ensures next == Growing ==> r.isBig && r.body == p.body.(h := BigHeight, y := p.body.y - SizeShift) && r.jumpTime == p.jumpTime
    ensures next == Shrinking ==> !r.isBig && r.body == p.body && r.jumpTime == p.jumpTime
    ensures next == Falling || next == Skidding ==> r == p.(state := next)
  {
    var q := p.(state := next);
    match next
    case Idling => q.(body := q.body.(vx := 0.0, vy := 0.0))
    case Walking => q.(body := q.body.(onGround := true))
    case Jumping => q.(jumpTime := 0.0, body := q.body.(vy := cfg.jumpPower))
    case Growing => q.(isBig := true, body := q.body.(h := BigHeight, y := q.body.y - SizeShift))
    case Shrinking => q.(isBig := false)
    case Falling => q
    case Skidding => q
  }

  /** The physics of the current frame: the map snapshot, its tile size, the blocks and the map width in tiles. */
  datatype Env = Env(grid: Grid, tileSize: int, blocks: seq<BlockView>, mapWidth: int)

  predicate EnvOk(e: Env)
  {
    GridOk(e.grid) && e.tileSize > 0
  }

  /** `applyGravity`. */
  function Gravity(p: Pose, dt: real, cfg: Config): (r: Pose)
    ensures p.body.onGround ==> r == p
    ensures !p.body.onGround ==> r.body.vy <= cfg.maxFallSpeed
    ensures r == p.(body := p.body.(vy := r.body.vy))
  {
    if p.body.onGround then p else p.(body := p.body.(vy := Fall(p.body.vy, dt, cfg)))
  }

  /** A pose after a physics step, and the block the step hit from below. */
  datatype Moved = Moved(pose: Pose, hit: Option<nat>)

  /** `PlayerState.update`: gravity, then `updatePosition`. */
  function BaseUpdate(p: Pose, dt: real, env: Env, cfg: Config): (m: Moved)
    requires EnvOk(env)
    ensures m.pose == p.(body := m.pose.body)
  {
    var q := Gravity(p, dt, cfg);
    var v := UpdatePosition(env.grid, env.tileSize, env.blocks, env.mapWidth, q.body, dt);
    Moved(q.(body := v.body), v.hit)
  }

  /** `BaseUpdate` in terms of its two steps. */
  lemma BaseUpdateSteps(p: Pose, dt: real, env: Env, cfg: Config, q: Pose, v: Vertical)
    requires EnvOk(env)
    requires q == Gravity(p, dt, cfg)
    requires v == UpdatePosition(env.grid, env.tileSize, env.blocks, env.mapWidth, q.body, dt)
    ensures BaseUpdate(p, dt, env, cfg) == Moved(q.(body := v.body), v.hit)
  {
  }

  /** The physics step moves only the body, to whole pixels inside the map, keeps its size, and hits only unhit blocks. */
  lemma BaseUpdateBounds(p: Pose, dt: real, env: Env, cfg: Config)
    requires EnvOk(env)
    ensures var m := BaseUpdate(p, dt, env, cfg);
      IsWhole(m.pose.body.x) && IsWhole(m.pose.body.y) && 0.0 <= m.pose.body.x
      && m.pose.body.w == p.body.w && m.pose.body.h == p.body.h
      && (m.hit.Some? ==> m.hit.value < |env.blocks| && !env.blocks[m.hit.value].isHit)
  {
    var q := Gravity(p, dt, cfg);
    UpdatePositionBounds(env.grid, env.tileSize, env.blocks, env.mapWidth, q.body, dt);
  }

  /** `handleHorizontalMovement` on a pose. */
  function Steer(p: Pose, input: Input, cfg: Config): (r: Pose)
    ensures r.body.vx == 0.0 || Abs(r.body.vx) >= RestSpeed
    ensures r == p.(facingRight := r.facingRight, body := p.body.(vx := r.body.vx))
  {
    var h := HorizontalControl(p.body.vx, p.facingRight, input, cfg);
    p.(facingRight := h.facingRight, body := p.body.(vx := h.vx))
  }

  /**
   * What a state's update leaves alone: the size, the invincibility and the
   * width; and it never enters Growing or Shrinking (only `grow` and
   * `shrink` do).
   */
  predicate KeepsStatus(p: Pose, r: Pose)
  {
    r.isBig == p.isBig && r.isInvincible == p.isInvincible && r.invincibilityTimer == p.invincibilityTimer
    && r.isGrowing == p.isGrowing && r.body.w == p.body.w
    && (r.state == Growing || r.state == Shrinking ==> r.state == p.state)
  }

  // ---- Walking ----

  /** `shouldIdle`: no movement flag set and practically at rest. */
  predicate ShouldIdle(p: Pose)
  {
    !p.isMovingLeft && !p.isMovingRight && Abs(p.body.vx) < RestSpeed
  }

  /** `shouldSkid`: grounded, fast, and the held key opposes the motion. */
  predicate ShouldSkid(p: Pose, input: Input, cfg: Config)
  {
    p.body.onGround && Abs(p.body.vx) > cfg.skidThreshold
    && ((input.aHeld && p.body.vx > 0.0) || (input.dHeld && p.body.vx < 0.0))
  }

  /**
   * Walking `checkTransitions`: three independent checks, each of which may change the state.
   * Idling zeroes the velocity, so an idle player never skids afterwards and, when airborne,
   * always ends in `Falling`; a skid keeps the player on the ground.
   */
  function WalkingTransitions(p: Pose, input: Input, cfg: Config): (r: Pose)
    ensures KeepsStatus(p, r)
    ensures r.body.x == p.body.x && r.isBig == p.isBig
    ensures ShouldIdle(p) && p.body.onGround ==> r == p.(state := Idling, body := p.body.(vx := 0.0, vy := 0.0))
    ensures ShouldIdle(p) && !p.body.onGround ==> r == p.(state := Falling, body := p.body.(vx := 0.0, vy := 0.0))
    ensures !ShouldIdle(p) && ShouldSkid(p, input, cfg) ==> r == p.(state := Skidding, facingRight := !p.facingRight)
    ensures !ShouldIdle(p) && !ShouldSkid(p, input, cfg) && p.body.onGround ==> r == p
    ensures !ShouldIdle(p) && !p.body.onGround && p.body.vy < 0.0
            ==> r == p.(state := Jumping, jumpTime := 0.0, body := p.body.(vy := cfg.jumpPower))
    ensures !ShouldIdle(p) && !p.body.onGround && p.body.vy >= 0.0 ==> r == p.(state := Falling)
  {
    var idled := if ShouldIdle(p) then Change(p, Idling, cfg) else p;
    var skidded := if ShouldSkid(idled, input, cfg)
      then Change(idled.(facingRight := !idled.facingRight), Skidding, cfg)
      else idled;
    if !skidded.body.onGround then
      if skidded.body.vy < 0.0 then Change(skidded, Jumping, cfg) else Change(skidded, Falling, cfg)
    else skidded
  }

  /** Walking `handleInput`: the movement flags, then a jump on a fresh press. */
  function WalkingInput(p: Pose, input: Input, cfg: Config): (r: Pose)
    ensures KeepsStatus(p, r)
    ensures !(r.isMovingLeft && r.isMovingRight)
    ensures r.isMovingLeft <==> input.aHeld && !p.isMovingRight
    ensures r.isMovingRight <==> input.dHeld && !r.isMovingLeft
    ensures r.state == if input.spacePressed then Jumping else p.state
  {
    var left := input.aHeld && !p.isMovingRight;
    var right := input.dHeld && !left;
    var flagged := p.(isMovingLeft := left, isMovingRight := right);
    if input.spacePressed then Change(flagged, Jumping, cfg) else flagged
  }

  /** Walking `update`: physics, transitions, input, horizontal control (all four run even after a change). */
  function WalkingUpdate(p: Pose, input: Input, dt: real, env: Env, cfg: Config): (m: Moved)
    requires EnvOk(env)
    ensures KeepsStatus(p, m.pose)
    ensures m.pose.body.vx == 0.0 || Abs(m.pose.body.vx) >= RestSpeed
    ensures !(m.pose.isMovingLeft && m.pose.isMovingRight)
  {
    var base := BaseUpdate(p, dt, env, cfg);
    Moved(Steer(WalkingInput(WalkingTransitions(base.pose, input, cfg), input, cfg), input, cfg), base.hit)
  }

  // ---- Jumping ----

  /** Jumping `handleInput`. */
  function JumpingInput(p: Pose, input: Input): (r: Pose)
    ensures r == p.(body := p.body.(vy := r.body.vy))
    ensures input.spaceHeld || p.body.vy >= 0.0 ==> r == p
    ensures !input.spaceHeld && p.body.vy < 0.0 ==> p.body.vy < r.body.vy < 0.0 && r.body.vy * 2.0 == p.body.vy
  {
    p.(body := p.body.(vy := JumpRelease(p.body.vy, input.spaceHeld)))
  }

  /** Jumping `checkTransitions`: no longer rising means falling. */
  function JumpingTransitions(p: Pose, cfg: Config): (r: Pose)
    ensures KeepsStatus(p, r)
    ensures r.state == if p.body.vy >= 0.0 then Falling else p.state
    ensures r.body == p.body && r.jumpTime == p.jumpTime
  {
    if p.body.vy >= 0.0 then Change(p, Falling, cfg) else p
  }

  /** `handleJumping` on a pose. */
  function HandleJumping(p: Pose, input: Input, dt: real, cfg: Config): (r: Pose)
    requires cfg.maxJumpTime != 0.0
    ensures r == p.(jumpTime := r.jumpTime, body := p.body.(vy := r.body.vy))
    ensures input.spaceHeld && p.jumpTime <= cfg.maxJumpTime
            ==> r.jumpTime == p.jumpTime + dt && r.body.vy == JumpBoost(p.jumpTime, cfg)
    ensures ValidConfig(cfg) && 0.0 <= p.jumpTime && input.spaceHeld && p.jumpTime <= cfg.maxJumpTime
            ==> cfg.jumpPower <= r.body.vy <= 0.0
    ensures !(input.spaceHeld && p.jumpTime <= cfg.maxJumpTime) ==> r.jumpTime == 0.0 && r.body == p.body
  {
    var j := HoldJump(Jump(p.body.vy, p.jumpTime), input.spaceHeld, dt, cfg);
    p.(jumpTime := j.jumpTime, body := p.body.(vy := j.vy))
  }

  /** Jumping `update`: physics, input, horizontal control, transitions, then the held-jump boost. */
  function JumpingUpdate(p: Pose, input: Input, dt: real, env: Env, cfg: Config): (m: Moved)
    requires EnvOk(env) && cfg.maxJumpTime != 0.0
    ensures KeepsStatus(p, m.pose)
    ensures m.pose.state == Jumping || m.pose.state == Falling || m.pose.state == p.state
  {
    var base := BaseUpdate(p, dt, env, cfg);
    var steered := Steer(JumpingInput(base.pose, input), input, cfg);
    Moved(HandleJumping(JumpingTransitions(steered, cfg), input, dt, cfg), base.hit)
  }

  // ---- Skidding ----

  /** Skidding `handleInput`. */
  function SkiddingInput(p: Pose, input: Input, cfg: Config): (r: Pose)
    ensures KeepsStatus(p, r)
    ensures r.state == if input.spacePressed then Jumping else p.state
    ensures !input.spacePressed ==> r == p
  {
    if input.spacePressed then Change(p, Jumping, cfg) else p
  }

  /** `handleSkidding`: brake, then snap to rest. */
  function Skid(p: Pose, cfg: Config): (r: Pose)
    ensures r == p.(body := p.body.(vx := r.body.vx))
    ensures r.body.vx == 0.0 || Abs(r.body.vx) >= RestSpeed
    ensures cfg.deceleration >= 0.0 ==> Abs(r.body.vx) <= Abs(p.body.vx)
    ensures p.body.vx >= 0.0 ==> r.body.vx >= 0.0
    ensures p.body.vx <= 0.0 ==> r.body.vx <= 0.0
  {
    p.(body := p.body.(vx := SnapToRest(Decelerate(p.body.vx, cfg))))
  }

  /** Skidding `checkTransitions`: once stopped, walk on if a direction is held, else stand. */
  function SkiddingTransitions(p: Pose, input: Input, cfg: Config): (r: Pose)
    ensures KeepsStatus(p, r)
    ensures Abs(p.body.vx) >= RestSpeed ==> r == p
    ensures Abs(p.body.vx) < RestSpeed ==> r.state == if input.aHeld || input.dHeld then Walking else Idling
  {
    if Abs(p.body.vx) < RestSpeed then
      if input.aHeld || input.dHeld then Change(p, Walking, cfg) else Change(p, Idling, cfg)
    else p
  }

  /** Skidding `update`: physics, input, braking, transitions. */
  function SkiddingUpdate(p: Pose, input: Input, dt: real, env: Env, cfg: Config): (m: Moved)
    requires EnvOk(env)
    ensures KeepsStatus(p, m.pose)
  {
    var base := BaseUpdate(p, dt, env, cfg);
    Moved(SkiddingTransitions(Skid(SkiddingInput(base.pose, input, cfg), cfg), input, cfg), base.hit)
  }

  // ---- Idling ----

  /** Idling `handleInput`: a jump press, then a walk when exactly one direction is held; both checks run. */
  function IdlingInput(p: Pose, input: Input, cfg: Config): (r: Pose)
    ensures KeepsStatus(p, r)
    ensures input.aHeld != input.dHeld ==> r.state == Walking
    ensures input.aHeld == input.dHeld ==> r.state == if input.spacePressed then Jumping else p.state
  {
    var jumped := if input.spacePressed then Change(p, Jumping, cfg) else p;
    if input.aHeld != input.dHeld then Change(jumped, Walking, cfg) else jumped
  }

  /** Idling `update`: physics, then input. */
  function IdlingUpdate(p: Pose, input: Input, dt: real, env: Env, cfg: Config): (m: Moved)
    requires EnvOk(env)
    ensures KeepsStatus(p, m.pose)
  {
    var base := BaseUpdate(p, dt, env, cfg);
    Moved(IdlingInput(base.pose, input, cfg), base.hit)
  }

  // ---- Falling ----

  /** Falling `checkTransitions`. */
  function FallingTransitions(p: Pose, cfg: Config): (r: Pose)
    ensures KeepsStatus(p, r)
    ensures !p.body.onGround ==> r == p
    ensures p.body.onGround ==> r.state == if Abs(p.body.vx) < RestSpeed then Idling else Walking
  {
    if p.body.onGround then
      if Abs(p.body.vx) < RestSpeed then Change(p, Idling, cfg) else Change(p, Walking, cfg)
    else p
  }

  /** Falling `update`: physics, horizontal control, then transitions on the steered speed. */
  function FallingUpdate(p: Pose, input: Input, dt: real, env: Env, cfg: Config): (m: Moved)
    requires EnvOk(env)
    ensures KeepsStatus(p, m.pose)
  {
    var base := BaseUpdate(p, dt, env, cfg);
    Moved(FallingTransitions(Steer(base.pose, input, cfg), cfg), base.hit)
  }

  // ---- Growing and Shrinking ----

  /** Growing `checkTransitions`. */
  function GrowingTransitions(p: Pose, animationDone: bool, cfg: Config): (r: Pose)
    ensures KeepsStatus(p, r)
    ensures !animationDone ==> r == p
    ensures animationDone ==> r.state == Idling && r.body.h == p.body.h && r.body.y == p.body.y
  {
    if animationDone then Change(p, Idling, cfg) else p
  }

  /** Shrinking `checkTransitions`: when the animation ends, back to the small height, top edge 8 px lower. */
  function ShrinkingTransitions(p: Pose, animationDone: bool, cfg: Config): (r: Pose)
    ensures KeepsStatus(p, r)
    ensures !animationDone ==> r == p
    ensures animationDone ==> r.state == Idling && r.body.h == SmallHeight && r.body.y == p.body.y + SizeShift
  {
    if animationDone then Change(p.(body := p.body.(h := SmallHeight, y := p.body.y + SizeShift)), Idling, cfg)
    else p
  }

  function GrowingUpdate(p: Pose, dt: real, animationDone: bool, env: Env, cfg: Config): (m: Moved)
    requires EnvOk(env)
    ensures KeepsStatus(p, m.pose)
  {
    var base := BaseUpdate(p, dt, env, cfg);
    Moved(GrowingTransitions(base.pose, animationDone, cfg), base.hit)
  }

  function ShrinkingUpdate(p: Pose, dt: real, animationDone: bool, env: Env, cfg: Config): (m: Moved)
    requires EnvOk(env)
    ensures KeepsStatus(p, m.pose)
  {
    var base := BaseUpdate(p, dt, env, cfg);
    Moved(ShrinkingTransitions(base.pose, animationDone, cfg), base.hit)
  }

  /** `stateMachine.update(dt)`: the current state's `update`. */
  function StateUpdate(p: Pose, input: Input, dt: real, animationDone: bool, env: Env, cfg: Config): (m: Moved)
    requires EnvOk(env) && cfg.maxJumpTime != 0.0
    ensures KeepsStatus(p, m.pose)
  {
    match p.state
    case Idling => IdlingUpdate(p, input, dt, env, cfg)
    case Walking => WalkingUpdate(p, input, dt, env, cfg)
    case Jumping => JumpingUpdate(p, input, dt, env, cfg)
    case Falling => FallingUpdate(p, input, dt, env, cfg)
    case Skidding => SkiddingUpdate(p, input, dt, env, cfg)
    case Growing => GrowingUpdate(p, dt, animationDone, env, cfg)
    case Shrinking => ShrinkingUpdate(p, dt, animationDone, env, cfg)
  }

  /** While growing or shrinking the keyboard is ignored. */
  lemma SizeChangeIgnoresInput(p: Pose, i1: Input, i2: Input, dt: real, animationDone: bool, env: Env, cfg: Config)
    requires EnvOk(env) && cfg.maxJumpTime != 0.0
    requires p.state == Growing || p.state == Shrinking
    ensures StateUpdate(p, i1, dt, animationDone, env, cfg) == StateUpdate(p, i2, dt, animationDone, env, cfg)
  {
  }

  // ---- Size, damage and invincibility ----

  /** `Player.grow`. */
  function Grow(p: Pose, cfg: Config): (r: Pose)
    ensures r.state == Growing && r.isBig && r.isGrowing
    ensures r.body.h == BigHeight && r.body.y == p.body.y - SizeShift
    ensures r.isInvincible == p.isInvincible && r.invincibilityTimer == p.invincibilityTimer
    ensures r == p.(state := Growing, isBig := true, isGrowing := true, body := p.body.(h := BigHeight, y := p.body.y - SizeShift))
  {
    Change(p.(isGrowing := true), Growing, cfg)
  }

  /** `Player.shrink`: losing the big form grants two seconds of invincibility at once. */
  function Shrink(p: Pose, cfg: Config): (r: Pose)
    ensures r.state == Shrinking && !r.isBig
    ensures r.isInvincible && r.invincibilityTimer == InvincibleFor
    ensures r.body == p.body
    ensures r == p.(state := Shrinking, isBig := false, isInvincible := true, invincibilityTimer := InvincibleFor)
  {
    Change(p, Shrinking, cfg).(isInvincible := true, invincibilityTimer := InvincibleFor)
  }

  /** `Player.die`: back to the start position; nothing else but the invincibility flag is reset. */
  function Die(p: Pose, x0: real, y0: real): (r: Pose)
    ensures r.body.x == x0 && r.body.y == y0 && !r.isInvincible
    ensures r == p.(body := p.body.(x := r.body.x, y := r.body.y), isInvincible := r.isInvincible)
  {
    p.(body := p.body.(x := x0, y := y0), isInvincible := false)
  }

  /** The invincibility countdown of `Player.update`. */
  function Tick(p: Pose, dt: real): (r: Pose)
    ensures !p.isInvincible ==> r == p
    ensures p.isInvincible ==>
      r.invincibilityTimer == p.invincibilityTimer - dt && (r.isInvincible <==> r.invincibilityTimer > 0.0)
    ensures r == p.(isInvincible := r.isInvincible, invincibilityTimer := r.invincibilityTimer)
  {
    if p.isInvincible then
      var t := p.invincibilityTimer - dt;
      p.(invincibilityTimer := t, isInvincible := !(t <= 0.0))
    else p
  }

  /** The total of a run of frame times. */
  function Total(dts: seq<real>): real
  {
    if dts == [] then 0.0 else dts[0] + Total(dts[1..])
  }

  /** The countdown over several frames, nothing else acting. */
  function Ticks(p: Pose, dts: seq<real>): Pose
    decreases dts
  {
    if dts == [] then p else Ticks(Tick(p, dts[0]), dts[1..])
  }

  lemma {:induction false} TotalNonNegative(dts: seq<real>)
    requires forall i :: 0 <= i < |dts| ==> dts[i] >= 0.0
    ensures Total(dts) >= 0.0
  {
    if dts != [] {
      TotalNonNegative(dts[1..]);
    }
  }

  /**
   * Over frames of non-negative length, a player whose timer is running
   * (positive while invincible, as `shrink` and the countdown keep it) stays
   * invincible exactly while the elapsed time is below the timer it started
   * with; once the timer has run out, invincibility stays off.
   */
  lemma {:induction false} InvincibilityExpires(p: Pose, dts: seq<real>)
    requires p.isInvincible ==> p.invincibilityTimer > 0.0
    requires forall i :: 0 <= i < |dts| ==> dts[i] >= 0.0
    ensures Ticks(p, dts).isInvincible <==> p.isInvincible && Total(dts) < p.invincibilityTimer
    decreases dts
  {
    if dts != [] {
      var q := Tick(p, dts[0]);
      InvincibilityExpires(q, dts[1..]);
      TotalNonNegative(dts[1..]);
      assert Ticks(p, dts) == Ticks(q, dts[1..]);
      assert Total(dts) == dts[0] + Total(dts[1..]);
    }
  }

  /** Growing and then finishing a shrink puts the top edge back where it was, at the small height. */
  lemma {:induction false} GrowThenShrinkRestores(p: Pose, cfg: Config)
    requires p.body.h == SmallHeight
    ensures var grown := Grow(p, cfg);
      var shrunk := ShrinkingTransitions(Shrink(grown, cfg), true, cfg);
      shrunk.body.h == SmallHeight && shrunk.body.y == p.body.y && shrunk.body.y + shrunk.body.h as real == grown.body.y + grown.body.h as real
  {
  }

  /** Growing keeps the bottom edge in place when the player was small. */
  lemma {:induction false} GrowKeepsFeet(p: Pose, cfg: Config)
    requires p.body.h == SmallHeight
    ensures Grow(p, cfg).body.y + BigHeight as real == p.body.y + SmallHeight as real
  {
  }

  // ---- Contacts ----

  /** The outcome of one contact: the player's pose, and whether the other party is now dead or collected. */
  datatype Contact = Contact(pose: Pose, flag: bool)

  /** `Goomba.onCollideWithPlayer`: a stomp kills the goomba; otherwise a live goomba shrinks a big player or kills a small one. */
  function GoombaContact(p: Pose, goomba: Box, goombaDead: bool, x0: real, y0: real, cfg: Config): (r: Contact)
    ensures Stomps(p.body.BoxOf(), goomba) ==> r == Contact(p, true)
    ensures !Stomps(p.body.BoxOf(), goomba) && !goombaDead && p.isBig ==> r == Contact(Shrink(p, cfg), false)
    ensures !Stomps(p.body.BoxOf(), goomba) && !goombaDead && !p.isBig ==> r == Contact(Die(p, x0, y0), false)
    ensures !Stomps(p.body.BoxOf(), goomba) && goombaDead ==> r == Contact(p, false)
  {
    if Stomps(p.body.BoxOf(), goomba) then Contact(p, true)
    else if !goombaDead then Contact(if p.isBig then Shrink(p, cfg) else Die(p, x0, y0), false)
    else Contact(p, false)
  }

  /**
   * `checkGoombaCollision`'s loop from goomba `i` on: each live goomba the
   * player's current box overlaps gets a contact, in list order; `dead`
   * holds the goombas' flags as updated so far.
   */
  function GoombaSweep(p: Pose, boxes: seq<Box>, dead: seq<bool>, i: nat,
                       overlaps: (Box, Box) -> bool, x0: real, y0: real, cfg: Config): (r: Contact)
    requires |dead| == |boxes| && i <= |boxes|
    decreases |boxes| - i
  {
    if i == |boxes| then Contact(p, false)
    else
      var touch := overlaps(p.body.BoxOf(), boxes[i]) && !dead[i];
      var c := if touch then GoombaContact(p, boxes[i], dead[i], x0, y0, cfg) else Contact(p, false);
      GoombaSweep(c.pose, boxes, dead[i := dead[i] || c.flag], i + 1, overlaps, x0, y0, cfg)
  }

  /** The goombas' dead flags after the sweep from `i`. */
  function GoombaSweepDead(p: Pose, boxes: seq<Box>, dead: seq<bool>, i: nat,
                           overlaps: (Box, Box) -> bool, x0: real, y0: real, cfg: Config): (r: seq<bool>)
    requires |dead| == |boxes| && i <= |boxes|
    ensures |r| == |dead|
    decreases |boxes| - i
  {
    if i == |boxes| then dead
    else
      var touch := overlaps(p.body.BoxOf(), boxes[i]) && !dead[i];
      var c := if touch then GoombaContact(p, boxes[i], dead[i], x0, y0, cfg) else Contact(p, false);
      GoombaSweepDead(c.pose, boxes, dead[i := dead[i] || c.flag], i + 1, overlaps, x0, y0, cfg)
  }

  /** A goomba ends dead only if it was dead already or the player's box at its turn overlapped it; none is revived. */
  lemma {:induction false} GoombaSweepOnlyTouched(p: Pose, boxes: seq<Box>, dead: seq<bool>, i: nat,
                                     overlaps: (Box, Box) -> bool, x0: real, y0: real, cfg: Config, k: int)
    requires |dead| == |boxes| && i <= |boxes| && 0 <= k < |boxes|
    ensures dead[k] ==> GoombaSweepDead(p, boxes, dead, i, overlaps, x0, y0, cfg)[k]
    ensures k < i ==> GoombaSweepDead(p, boxes, dead, i, overlaps, x0, y0, cfg)[k] == dead[k]
    decreases |boxes| - i
  {
    if i < |boxes| {
      var touch := overlaps(p.body.BoxOf(), boxes[i]) && !dead[i];
      var c := if touch then GoombaContact(p, boxes[i], dead[i], x0, y0, cfg) else Contact(p, false);
      GoombaSweepOnlyTouched(c.pose, boxes, dead[i := dead[i] || c.flag], i + 1, overlaps, x0, y0, cfg, k);
    }
  }

  /** Without any overlap the sweep changes nothing. */
  lemma {:induction false} GoombaSweepUntouched(p: Pose, boxes: seq<Box>, dead: seq<bool>, i: nat,
                                   overlaps: (Box, Box) -> bool, x0: real, y0: real, cfg: Config)
    requires |dead| == |boxes| && i <= |boxes|
    requires forall j :: i <= j < |boxes| ==> !overlaps(p.body.BoxOf(), boxes[j])
    ensures GoombaSweep(p, boxes, dead, i, overlaps, x0, y0, cfg).pose == p
    ensures GoombaSweepDead(p, boxes, dead, i, overlaps, x0, y0, cfg) == dead
    decreases |boxes| - i
  {
    if i < |boxes| {
      assert dead[i := dead[i] || false] == dead;
      GoombaSweepUntouched(p, boxes, dead, i + 1, overlaps, x0, y0, cfg);
    }
  }

  /** `checkGoombaCollision`'s pose: an invincible player skips the whole sweep. */
  function GoombaCheck(p: Pose, boxes: seq<Box>, dead: seq<bool>, overlaps: (Box, Box) -> bool,
                       x0: real, y0: real, cfg: Config): (r: Pose)
    requires |dead| == |boxes|
    ensures p.isInvincible ==> r == p
    ensures !p.isInvincible && (forall j :: 0 <= j < |boxes| ==> !overlaps(p.body.BoxOf(), boxes[j])) ==> r == p
  {
    if p.isInvincible then p
    else
      GoombaSweepUntouchedIf(p, boxes, dead, overlaps, x0, y0, cfg);
      GoombaSweep(p, boxes, dead, 0, overlaps, x0, y0, cfg).pose
  }

  /** `checkGoombaCollision`'s dead flags: none changes for an invincible player, and none is revived. */
  function GoombaCheckDead(p: Pose, boxes: seq<Box>, dead: seq<bool>, overlaps: (Box, Box) -> bool,
                           x0: real, y0: real, cfg: Config): (r: seq<bool>)
    requires |dead| == |boxes|
    ensures |r| == |dead|
    ensures p.isInvincible ==> r == dead
    ensures forall k :: 0 <= k < |dead| && dead[k] ==> r[k]
  {
    if p.isInvincible then dead
    else
      var r := GoombaSweepDead(p, boxes, dead, 0, overlaps, x0, y0, cfg);
      forall k | 0 <= k < |dead| && dead[k]
        ensures r[k]
      {
        GoombaSweepOnlyTouched(p, boxes, dead, 0, overlaps, x0, y0, cfg, k);
      }
      r
  }

  lemma GoombaSweepUntouchedIf(p: Pose, boxes: seq<Box>, dead: seq<bool>, overlaps: (Box, Box) -> bool,
                               x0: real, y0: real, cfg: Config)
    requires |dead| == |boxes|
    ensures (forall j :: 0 <= j < |boxes| ==> !overlaps(p.body.BoxOf(), boxes[j]))
            ==> GoombaSweep(p, boxes, dead, 0, overlaps, x0, y0, cfg).pose == p
  {
    if forall j :: 0 <= j < |boxes| ==> !overlaps(p.body.BoxOf(), boxes[j]) {
      GoombaSweepUntouched(p, boxes, dead, 0, overlaps, x0, y0, cfg);
    }
  }

  /**
   * The invincibility a shrink grants is only looked at before the sweep:
   * a big player who runs into two live goombas in the same frame, without
   * stomping either, shrinks on the first and dies on the second.
   */
  lemma ShrinkThenDieInOneSweep(p: Pose, g1: Box, g2: Box, overlaps: (Box, Box) -> bool,
                                x0: real, y0: real, cfg: Config)
    requires p.isBig && !p.isInvincible
    requires overlaps(p.body.BoxOf(), g1) && overlaps(p.body.BoxOf(), g2)
    requires !Stomps(p.body.BoxOf(), g1) && !Stomps(p.body.BoxOf(), g2)
    ensures GoombaCheck(p, [g1, g2], [false, false], overlaps, x0, y0, cfg) == Die(Shrink(p, cfg), x0, y0)
  {
    var boxes, dead := [g1, g2], [false, false];
    var s := Shrink(p, cfg);
    assert s.body == p.body && !s.isBig;
    assert GoombaContact(p, g1, false, x0, y0, cfg) == Contact(s, false);
    assert dead[0 := false || false] == dead;
    assert GoombaSweep(p, boxes, dead, 0, overlaps, x0, y0, cfg) == GoombaSweep(s, boxes, dead, 1, overlaps, x0, y0, cfg);
    assert GoombaContact(s, g2, false, x0, y0, cfg) == Contact(Die(s, x0, y0), false);
    assert dead[1 := false || false] == dead;
    assert GoombaSweep(s, boxes, dead, 1, overlaps, x0, y0, cfg) == GoombaSweep(Die(s, x0, y0), boxes, dead, 2, overlaps, x0, y0, cfg);
  }

  /** Which coins the player's box hits: overlapping and not yet collected, aligned with the coin list. */
  function CoinHits(player: Box, boxes: seq<Box>, collected: seq<bool>, overlaps: (Box, Box) -> bool): (r: seq<bool>)
    requires |collected| == |boxes|
    ensures |r| == |boxes| && forall j :: 0 <= j < |boxes| ==> r[j] == (overlaps(player, boxes[j]) && !collected[j])
  {
    seq(|boxes|, j requires 0 <= j < |boxes| => overlaps(player, boxes[j]) && !collected[j])
  }

  /** `Mushroom.onCollideWithPlayer`: the first contact collects it and grows a small player. */
  function MushroomContact(p: Pose, collected: bool, cfg: Config): (r: Contact)
    ensures collected ==> r == Contact(p, true)
    ensures !collected && p.isBig ==> r == Contact(p, true)
    ensures !collected && !p.isBig ==> r == Contact(Grow(p, cfg), true)
  {
    if !collected then Contact(if !p.isBig then Grow(p, cfg) else p, true)
    else Contact(p, collected)
  }

  /** `checkMushroomCollision`'s loop from mushroom `i` on, the player's pose as it ends. */
  function MushroomSweep(p: Pose, boxes: seq<Box>, collected: seq<bool>, i: nat,
                         overlaps: (Box, Box) -> bool, cfg: Config): (r: Pose)
    requires |collected| == |boxes| && i <= |boxes|
    decreases |boxes| - i
  {
    if i == |boxes| then p
    else
      var touch := overlaps(p.body.BoxOf(), boxes[i]) && !collected[i];
      var c := if touch then MushroomContact(p, collected[i], cfg) else Contact(p, collected[i]);
      MushroomSweep(c.pose, boxes, collected[i := c.flag], i + 1, overlaps, cfg)
  }

  /** One visit of the mushroom sweep: the sweep from `i` is the sweep from `i + 1` after mushroom `i` reacts. */
  lemma MushroomSweepStep(p: Pose, boxes: seq<Box>, collected: seq<bool>, i: nat, overlaps: (Box, Box) -> bool, cfg: Config)
    requires |collected| == |boxes| && i < |boxes|
    ensures var c := if overlaps(p.body.BoxOf(), boxes[i]) && !collected[i] then MushroomContact(p, collected[i], cfg) else Contact(p, collected[i]);
      MushroomSweep(p, boxes, collected, i, overlaps, cfg) == MushroomSweep(c.pose, boxes, collected[i := c.flag], i + 1, overlaps, cfg)
      && MushroomSweepCollected(p, boxes, collected, i, overlaps, cfg) == MushroomSweepCollected(c.pose, boxes, collected[i := c.flag], i + 1, overlaps, cfg)
  {
  }

  /** The mushrooms' collected flags after the sweep from `i`. */
  function MushroomSweepCollected(p: Pose, boxes: seq<Box>, collected: seq<bool>, i: nat,
                                  overlaps: (Box, Box) -> bool, cfg: Config): (r: seq<bool>)
    requires |collected| == |boxes| && i <= |boxes|
    ensures |r| == |collected|
    decreases |boxes| - i
  {
    if i == |boxes| then collected
    else
      var touch := overlaps(p.body.BoxOf(), boxes[i]) && !collected[i];
      var c := if touch then MushroomContact(p, collected[i], cfg) else Contact(p, collected[i]);
      MushroomSweepCollected(c.pose, boxes, collected[i := c.flag], i + 1, overlaps, cfg)
  }

  /** A mushroom ends collected if it was collected already; those before `i` are not looked at. */
  lemma {:induction false} MushroomSweepKeepsCollected(p: Pose, boxes: seq<Box>, collected: seq<bool>, i: nat,
                                          overlaps: (Box, Box) -> bool, cfg: Config, k: int)
    requires |collected| == |boxes| && i <= |boxes| && 0 <= k < |boxes|
    ensures collected[k] ==> MushroomSweepCollected(p, boxes, collected, i, overlaps, cfg)[k]
    ensures k < i ==> MushroomSweepCollected(p, boxes, collected, i, overlaps, cfg)[k] == collected[k]
    decreases |boxes| - i
  {
    if i < |boxes| {
      var touch := overlaps(p.body.BoxOf(), boxes[i]) && !collected[i];
      var c := if touch then MushroomContact(p, collected[i], cfg) else Contact(p, collected[i]);
      MushroomSweepKeepsCollected(c.pose, boxes, collected[i := c.flag], i + 1, overlaps, cfg, k);
    }
  }

  /** A mushroom the small player's box overlaps first, uncollected, ends collected. */
  lemma {:induction false} MushroomSweepCollectsFirst(p: Pose, boxes: seq<Box>, collected: seq<bool>, i: nat,
                                         overlaps: (Box, Box) -> bool, cfg: Config, j: int)
    requires |collected| == |boxes| && i <= j < |boxes|
    requires overlaps(p.body.BoxOf(), boxes[j]) && !collected[j] && FirstTouch(p, boxes, collected, i, overlaps, j)
    ensures MushroomSweepCollected(p, boxes, collected, i, overlaps, cfg)[j]
    decreases |boxes| - i
  {
    var touch := overlaps(p.body.BoxOf(), boxes[i]) && !collected[i];
    var c := if touch then MushroomContact(p, collected[i], cfg) else Contact(p, collected[i]);
    if j == i {
      MushroomSweepKeepsCollected(c.pose, boxes, collected[i := c.flag], i + 1, overlaps, cfg, j);
    } else {
      assert !touch;
      assert collected[i := c.flag] == collected;
      assert FirstTouch(p, boxes, collected, i + 1, overlaps, j);
      MushroomSweepCollectsFirst(p, boxes, collected, i + 1, overlaps, cfg, j);
    }
  }

  /** A big player is never changed by mushrooms. */
  lemma {:induction false} MushroomSweepBigUnchanged(p: Pose, boxes: seq<Box>, collected: seq<bool>, i: nat,
                                        overlaps: (Box, Box) -> bool, cfg: Config)
    requires |collected| == |boxes| && i <= |boxes| && p.isBig
    ensures MushroomSweep(p, boxes, collected, i, overlaps, cfg) == p
    decreases |boxes| - i
  {
    if i < |boxes| {
      var touch := overlaps(p.body.BoxOf(), boxes[i]) && !collected[i];
      var c := if touch then MushroomContact(p, collected[i], cfg) else Contact(p, collected[i]);
      MushroomSweepBigUnchanged(c.pose, boxes, collected[i := c.flag], i + 1, overlaps, cfg);
    }
  }

  /** The player ends big exactly when it started big or some uncollected mushroom overlapped it. Growth therefore happens at most once per sweep. */
  lemma {:induction false} MushroomSweepGrows(p: Pose, boxes: seq<Box>, collected: seq<bool>, i: nat,
                                 overlaps: (Box, Box) -> bool, cfg: Config)
    requires |collected| == |boxes| && i <= |boxes| && !p.isBig
    ensures var r := MushroomSweep(p, boxes, collected, i, overlaps, cfg);
      r.isBig <==> exists j :: i <= j < |boxes| && overlaps(p.body.BoxOf(), boxes[j]) && !collected[j] && FirstTouch(p, boxes, collected, i, overlaps, j)
    decreases |boxes| - i
  {
    if i < |boxes| {
      var touch := overlaps(p.body.BoxOf(), boxes[i]) && !collected[i];
      if touch {
        MushroomSweepBigUnchanged(Grow(p, cfg), boxes, collected[i := true], i + 1, overlaps, cfg);
        assert FirstTouch(p, boxes, collected, i, overlaps, i);
      } else {
        assert collected[i := collected[i]] == collected;
        MushroomSweepGrows(p, boxes, collected, i + 1, overlaps, cfg);
        var r := MushroomSweep(p, boxes, collected, i, overlaps, cfg);
        if r.isBig {
          var j :| i + 1 <= j < |boxes| && overlaps(p.body.BoxOf(), boxes[j]) && !collected[j] && FirstTouch(p, boxes, collected, i + 1, overlaps, j);
          assert FirstTouch(p, boxes, collected, i, overlaps, j);
        }
        forall j | i <= j < |boxes| && overlaps(p.body.BoxOf(), boxes[j]) && !collected[j] && FirstTouch(p, boxes, collected, i, overlaps, j)
          ensures r.isBig
        {
          assert j != i;
          assert FirstTouch(p, boxes, collected, i + 1, overlaps, j);
        }
      }
    }
  }

  /** Mushroom `j` is the first one from `i` on that a small player touches. */
  predicate FirstTouch(p: Pose, boxes: seq<Box>, collected: seq<bool>, i: nat, overlaps: (Box, Box) -> bool, j: int)
    requires |collected| == |boxes| && i <= j < |boxes|
  {
    forall k :: i <= k < j ==> !(overlaps(p.body.BoxOf(), boxes[k]) && !collected[k])
  }
}
