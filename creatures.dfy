/**
 * Patrol physics of the Goomba and the Mushroom (src/entities/Goomba.js,
 * src/entities/Mushroom.js) on values. Both walk at a fixed speed, fall
 * under a fixed gravity, snap onto the ground and turn round at walls;
 * their ground and wall probes use `TileSize`.
 */
module Creatures {
  import opened Tiles
  import opened Physics
  import opened Collision
  import Layers

  const WalkSpeed: real := 30.0
  const CreatureGravity: real := 800.0

  /** What moves: position, whole-pixel size, falling speed and walking direction (1 right, -1 left). */
  datatype Critter = Critter(x: real, y: real, w: int, h: int, verticalSpeed: real, direction: int)
  {
    function BoxOf(): Box { Box(x, y, w, h) }
  }

  predicate Heading(c: Critter)
  {
    c.direction == 1 || c.direction == -1
  }

  /** Goomba `onGround`: a solid cell under the left or the right bottom corner. */
  predicate GoombaGrounded(g: Grid, c: Critter)
    requires GridOk(g)
  {
    var row := FloorDiv(c.y + c.h as real, TileSize);
    SolidAt(g, FloorDiv(c.x, TileSize), row) || SolidAt(g, FloorDiv(c.x + c.w as real - 1.0, TileSize), row)
  }

  /** Mushroom `onGround`: as the Goomba's, except that the right probe is `x + w`, one pixel past the box. */
  predicate MushroomGrounded(g: Grid, c: Critter)
    requires GridOk(g)
  {
    var row := FloorDiv(c.y + c.h as real, TileSize);
    SolidAt(g, FloorDiv(c.x, TileSize), row) || SolidAt(g, FloorDiv(c.x + c.w as real, TileSize), row)
  }

  /** `isCollidingWithWall` (both creatures): a solid cell at the leading edge, in the top or the bottom row of the box. */
  predicate WallAhead(g: Grid, c: Critter)
    requires GridOk(g)
  {
    var side := FloorDiv(c.x + (if c.direction > 0 then c.w else 0) as real, TileSize);
    SolidAt(g, side, FloorDiv(c.y, TileSize)) || SolidAt(g, side, FloorDiv(c.y + c.h as real - 1.0, TileSize))
  }

  /** Snapping onto the ground: y drops to the top of its own cell (`ts` pixels per cell) and the fall stops. */
  function Land(c: Critter, ts: int): (r: Critter)
    requires ts > 0
    ensures r.x == c.x && r.w == c.w && r.h == c.h && r.direction == c.direction
    ensures r.verticalSpeed == 0.0
    ensures r.y <= c.y < r.y + ts as real
    ensures r.y == (FloorDiv(c.y, ts) * ts) as real
  {
    FloorDivBounds(c.y, ts, FloorDiv(c.y, ts));
    c.(y := (FloorDiv(c.y, ts) * ts) as real, verticalSpeed := 0.0)
  }

  /** A wall ahead makes the creature turn round. */
  function Turn(g: Grid, c: Critter): (r: Critter)
    requires GridOk(g)
    ensures r.x == c.x && r.y == c.y && r.w == c.w && r.h == c.h && r.verticalSpeed == c.verticalSpeed
    ensures Heading(c) ==> Heading(r)
    ensures r.direction == if WallAhead(g, c) then -c.direction else c.direction
  {
    if WallAhead(g, c) then c.(direction := c.direction * -1) else c
  }

  /** Goomba `checkCollisions`: ground snap first, then the wall check on the snapped box. */
  function GoombaCollisions(g: Grid, c: Critter): (r: Critter)
    requires GridOk(g)
    ensures Heading(c) ==> Heading(r)
    ensures GoombaGrounded(g, c) ==> r.verticalSpeed == 0.0 && r.y == (FloorDiv(c.y, TileSize) * TileSize) as real
    ensures !GoombaGrounded(g, c) ==> r.y == c.y && r.verticalSpeed == c.verticalSpeed
    ensures r.x == c.x && r.w == c.w && r.h == c.h
  {
    Turn(g, if GoombaGrounded(g, c) then Land(c, TileSize) else c)
  }

  /** One frame of falling: gravity is added to the falling speed first, and y moves by the new speed. */
  function Descend(c: Critter, dt: real): (r: Critter)
    ensures r.verticalSpeed == c.verticalSpeed + CreatureGravity * dt
    ensures r.y == c.y + r.verticalSpeed * dt
    ensures r.x == c.x && r.w == c.w && r.h == c.h && r.direction == c.direction
  {
    var vs := c.verticalSpeed + CreatureGravity * dt;
    c.(verticalSpeed := vs, y := c.y + vs * dt)
  }

  /** One frame of walking in the current direction. */
  function Walk(c: Critter, dt: real): (r: Critter)
    ensures r.x == c.x + c.direction as real * WalkSpeed * dt
    ensures r.y == c.y && r.w == c.w && r.h == c.h && r.direction == c.direction && r.verticalSpeed == c.verticalSpeed
  {
    c.(x := c.x + c.direction as real * WalkSpeed * dt)
  }

  /** Goomba `updateMovement`: gravity first, then y, then x, then `checkCollisions`. */
  function GoombaMove(g: Grid, c: Critter, dt: real): (r: Critter)
    requires GridOk(g)
    ensures Heading(c) ==> Heading(r)
    ensures var moved := Walk(Descend(c, dt), dt);
      r.x == moved.x
      && (GoombaGrounded(g, moved) ==> r.verticalSpeed == 0.0 && r.y <= moved.y)
      && (!GoombaGrounded(g, moved) ==> r.verticalSpeed == moved.verticalSpeed && r.y == moved.y)
  {
    GoombaCollisions(g, Walk(Descend(c, dt), dt))
  }

  /** Mushroom `checkCollisions`: as the Goomba's, but it snaps to the map's own tile size. */
  function MushroomCollisions(g: Grid, ts: int, c: Critter): (r: Critter)
    requires GridOk(g) && ts > 0
    ensures Heading(c) ==> Heading(r)
    ensures MushroomGrounded(g, c) ==> r.verticalSpeed == 0.0 && r.y == (FloorDiv(c.y, ts) * ts) as real
    ensures !MushroomGrounded(g, c) ==> r.y == c.y && r.verticalSpeed == c.verticalSpeed
    ensures r.x == c.x && r.w == c.w && r.h == c.h
  {
    Turn(g, if MushroomGrounded(g, c) then Land(c, ts) else c)
  }

  /** Mushroom `update` while not collected: gravity, y, x only once it has finished rising out of the block, then collisions. */
  function MushroomMove(g: Grid, ts: int, c: Critter, spawning: bool, dt: real): (r: Critter)
    requires GridOk(g) && ts > 0
    ensures Heading(c) ==> Heading(r)
    ensures spawning ==> r.x == c.x
    ensures !spawning ==> r.x == Walk(c, dt).x
  {
    var fallen := Descend(c, dt);
    assert fallen.x == c.x && fallen.direction == c.direction;
    assert Walk(fallen, dt).x == Walk(c, dt).x;
    MushroomCollisions(g, ts, if spawning then fallen else Walk(fallen, dt))
  }

  /** A tile-high creature that lands stands exactly on top of the row its probe found. */
  lemma {:induction false} LandingOnGroundRow(c: Critter)
    requires c.h == TileSize
    ensures Land(c, TileSize).y + c.h as real == (FloorDiv(c.y + c.h as real, TileSize) * TileSize) as real
  {
    var q := FloorDiv(c.y, TileSize);
    assert (q * TileSize) as real <= c.y < ((q + 1) * TileSize) as real;
    var q' := FloorDiv(c.y + c.h as real, TileSize);
    assert ((q + 1) * TileSize) as real <= c.y + 16.0 < ((q + 2) * TileSize) as real;
    FloorDivUnique(c.y + c.h as real, TileSize, q + 1);
  }

  /** A tile index is determined by the coordinate. */
  lemma FloorDivUnique(a: real, d: int, q: int)
    requires d > 0 && (q * d) as real <= a < ((q + 1) * d) as real
    ensures FloorDiv(a, d) == q
  {
    var f := FloorDiv(a, d);
    FloorDivBounds(a, d, f);
    if f < q {
      Layers.MulMonotone(f + 1, q, d);
      assert false;
    } else if q < f {
      Layers.MulMonotone(q + 1, f, d);
      assert false;
    }
  }

  /** The stomp test of `onCollideWithPlayer`: the player's bottom tenth reaches no lower than the creature's top quarter. */
  predicate Stomps(player: Box, goomba: Box)
  {
    player.y + player.h as real * 0.9 <= goomba.y + goomba.h as real * 0.25
  }
}
