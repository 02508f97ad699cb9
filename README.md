# Platformer simulation core in Dafny

This project models the simulation core of a browser tile platformer written in JavaScript, together with proved properties of that model. It covers:

- the foreground tile layer and its queries;
- the map's load-time scan that turns special tiles into entities;
- the per-axis collision resolver;
- the player's seven-state controller with its size, damage and invincibility rules;
- goombas, mushrooms, blocks and coins.

The model has two layers.

- **Pure functions on values.**
  - `Tiles`, `Layers`, `Placement` and `Collision` cover the grid, the scan order and the resolver.
  - `Physics` covers the speed rules, `PlayerRules` the player's states and contact rules.
  - `Creatures` covers goomba and mushroom patrol physics.
  - `Sequences` covers the array operations the game performs: `filter`, and `splice` inside `forEach`.
- **Classes in module `World`.** These hold the game's live objects (`Map`, `Block`, `Coin`, `Goomba`, `Mushroom`, `CollisionDetector`, `Player`) with the fields the game updates in place. Each method is proved to leave its objects exactly as the matching function prescribes. Where the game loops, the method has a loop with invariants.

The player's state objects become methods of `World.Player`, dispatched on its `state` field. `change(next)` runs the new state's `enter`, as `stateMachine.change` does; every `exit` in the source only swaps animations.

Some things the game takes from outside become parameters:

- the keyboard becomes an `Input` record per frame;
- the tuning constants become a `Config` value;
- `Entity.collidesWith` becomes an `overlaps` function;
- an animation's `isDone()` becomes `animationDone`;
- `Math.random()` in `Block.hit` becomes `roll`.

Positions, speeds and times are `real`; sizes and tile coordinates are `int`. `Math.floor(a / ts)` is `FloorDiv`, and `Math.round` rounds halves up.

## Model

| member | source | states |
|---|---|---|
| Tiles.Classify | src/services/Map.js:167-181 | Every cell has exactly one category: solid exactly when `isSolidTileAt` holds, platform exactly when `isPlatformTileAt` holds, so no cell is both; an empty cell is nothing |
| Collision.CategoryAt | src/services/Map.js:167-181 | The same classification on grid coordinates; an out-of-bounds cell is neither solid nor platform |
| Layers.IndexInRange | src/services/Layer.js:43-45 | Every in-bounds cell's slot `x + y*width` lies inside the `width*height` array |
| Layers.IndexInjective | src/services/Layer.js:54-57 | Two in-bounds cells with the same slot are the same cell, so cells never alias |
| Layers.CellAtWithCell | src/services/Layer.js:66-70 | Reading after a write: the written in-bounds cell holds the new tile, every other cell reads as before, and an out-of-bounds write changes nothing |
| Layers.WithCell | src/services/Layer.js:66-70 | A write keeps the grid well formed |
| Layers.Layer.constructor | src/services/Layer.js:17-21 | The layer holds one tile per map-file id, in order, with the given width and height |
| Layers.Layer.GetTile | src/services/Layer.js:54-57 | Null exactly outside the bounds; inside, the stored tile at slot `x + y*width` |
| Layers.Layer.SetTile | src/services/Layer.js:66-70 | An in-bounds write makes `GetTile` return the new tile and keeps every other cell; an out-of-bounds write leaves the array unchanged |
| Layers.Layer.SetTileId | src/services/Layer.js:79-83 | Requires the addressed in-bounds tile to exist; only that tile's id changes, and an out-of-bounds call changes nothing |
| Layers.Layer.GenerateTiles | src/services/Layer.js:92-103 | Same length as the input; entry i is null exactly when id i is 0, and otherwise has id `data[i] - 1` |
| Collision.FirstBlockAt | src/services/Map.js:140-148 | A found index names a block whose half-open box holds the point |
| Collision.FirstBlockFrom | src/services/Map.js:141-147 | The search from block i finds only a block at or after i whose box holds the point |
| Collision.FirstBlockFromFirst | src/services/Map.js:140-148 | The found block is the first in list order holding the point, and none is found exactly when no block holds it |
| World.Map.GetBlockAt | src/services/Map.js:140-148 | Returns the live block at the index `FirstBlockAt` finds over the blocks' boxes, and none exactly when that finds none |
| World.Map.FindBlockFrom | src/services/Map.js:141-147 | The `find` search from block `i` on agrees with `FirstBlockFrom` |
| World.Map.IsSolidTileAt | src/services/Map.js:167-176 | On the live layer, agrees with the grid-level solid test |
| World.Map.IsPlatformTileAt | src/services/Map.js:178-181 | On the live layer, agrees with the grid-level platform test |
| World.Map.Snapshot | src/services/Map.js:41 | The live foreground layer as a well-formed grid value with the layer's dimensions |
| Placement.Cleared | src/services/Map.js:60-97 | A rewritten cell is never special; other cells stay as they are; a block cell becomes a blank tile |
| Placement.ClearedIdempotent | src/services/Map.js:60-97 | Rewriting a cell twice is the same as rewriting it once |
| Placement.CellsBeforeMembers | src/services/Map.js:56-57 | The scan has listed exactly the in-bounds cells with the id that it has passed, in both directions |
| Placement.CellsBeforeBounded | src/services/Map.js:56-57 | Every listed cell lies before the scan point |
| Placement.CellsBeforeSorted | src/services/Map.js:56-57 | Cells are listed in strictly increasing row-major order, so none is listed twice |
| World.Map.constructor | src/services/Map.js:24-50 | Every loaded cell is rewritten as the scan prescribes; no mushrooms exist yet; there is one block, goomba and coin per special cell of the decoded layer, in scan order, at (col*tileSize, row*tileSize) |
| World.Map.InitializeSpecialTiles | src/services/Map.js:55-101 | Keeps the layer's size; each cell ends as its rewrite (block to blank, goomba and coin to empty); the three lists hold one fresh entity per such cell in scan order |
| World.Map.ScanRow | src/services/Map.js:57-99 | One row of the scan takes the scan invariant from the row's start to the next row's start |
| World.Map.ScanStep | src/services/Map.js:58-97 | One cell of the scan preserves the scan invariant and advances it by one column |
| World.Map.PlaceBlock | src/services/Map.js:61-71 | A block cell appends its block and becomes blank, preserving the scan invariant |
| World.Map.PlaceGoomba | src/services/Map.js:72-84 | A goomba cell appends its goomba and becomes empty, preserving the scan invariant |
| World.Map.PlaceCoin | src/services/Map.js:85-97 | A coin cell appends its coin and becomes empty, preserving the scan invariant |
| World.Map.RowScanned | src/services/Map.js:56-57 | The end of one row of the scan is the start of the next |
| World.Map.ScanFinished | src/services/Map.js:55-101 | Past the last row every cell is rewritten and every special cell has its entity |
| World.Map.Update | src/services/Map.js:107-116 | Goombas become the old list filtered to the live ones, mushrooms the old list filtered to the uncollected ones, order kept; each goomba and uncollected mushroom has moved one frame; blocks and coins are untouched |
| World.Map.UpdateGoombas | src/services/Map.js:109-110 | Every goomba moves by `GoombaMove`, then the dead ones are dropped in order |
| World.Map.UpdateMushrooms | src/services/Map.js:112-115 | Every mushroom updates (a collected one stays put), then the collected ones are dropped in order |
| World.Map.RemoveCoinAt | src/entities/player/Player.js:130 | `splice(i, 1)` removes exactly slot i and keeps the list duplicate-free |
| Sequences.Without | src/entities/Block.js:122 | The filter leaves no copy of the removed value and never grows the list |
| Sequences.WithoutMembers | src/entities/Block.js:122 | An element stays exactly when it was present and is not the removed value |
| Sequences.WithoutSplit | src/entities/Block.js:122 | Removing a value that occurs once takes out exactly that occurrence and keeps the rest in order |
| Sequences.WithoutCons | src/entities/Block.js:122 | One step of the filter |
| Sequences.WithoutAbsent | src/services/Map.js:110 | Filtering out an absent value changes nothing |
| Sequences.WithoutDistinct | src/entities/Block.js:122 | Filtering keeps a duplicate-free list duplicate-free |
| Sequences.RemovedMask | src/entities/player/Player.js:127-131 | The removal mask is aligned with the list |
| Sequences.Keep | src/services/Map.js:110 | Keeping the unmasked elements never grows the list |
| Sequences.KeepMembers | src/services/Map.js:110 | An element is kept exactly when some unmasked position holds it |
| Sequences.KeepDistinct | src/services/Map.js:115 | Filtering keeps a duplicate-free list duplicate-free |
| Sequences.RemovedOnlyHits | src/entities/player/Player.js:128-130 | A splicing `forEach` removes only elements that were hits |
| Sequences.SuccessorSkipped | src/entities/player/Player.js:127-131 | The element after a removed one slides into the visited slot and is never removed in the same pass |
| Sequences.HitRemovedUnlessShadowed | src/entities/player/Player.js:127-131 | A hit is removed unless the element just before it was removed |
| Sequences.SpliceFromKeeps | src/entities/player/Player.js:127-131 | The list left by splicing inside `forEach` is the original with exactly the `RemovedMask` positions removed |
| Sequences.SpliceHitStep | src/entities/player/Player.js:127-131 | The same, from a visit that splices a hit |
| Sequences.KeepCons | src/services/Map.js:110 | `Keep` in terms of its head |
| Sequences.KeepTwo | src/entities/player/Player.js:127-131 | A removed head followed by a skipped element keeps that element |
| Sequences.KeepSnoc | src/services/Map.js:110 | Keeping a longer prefix adds the next element unless it is removed |
| Sequences.KeepAppend | src/services/Map.js:110 | `Keep` distributes over concatenation |
| Sequences.ScanStart | src/entities/player/Player.js:127 | The splicing scan starts at the head of the untouched list |
| Sequences.ScanHere | src/entities/player/Player.js:127-128 | The visited slot holds the next original element, which is a hit exactly when the scan removes it |
| Sequences.ScanPass | src/entities/player/Player.js:127-128 | Visiting a miss keeps it and moves on |
| Sequences.ScanRemove | src/entities/player/Player.js:128-131 | Visiting a hit splices it out and passes its successor without a visit |
| Sequences.KeepPassed | src/entities/player/Player.js:127-128 | The live list after passing a kept element |
| Sequences.KeepSpliced | src/entities/player/Player.js:130 | The live list after splicing a removed element |
| Sequences.ScanEnd | src/entities/player/Player.js:127-132 | When the visit index runs off the live list, every original element has been passed and exactly the unmasked ones remain |
| Sequences.RemoveAtDistinct | src/entities/player/Player.js:130 | `splice(i, 1)` keeps a duplicate-free list duplicate-free |
| Collision.BlockFromBelow | src/services/CollisionDetector.js:142-160 | A hit names an unhit block whose row bottom is within 5 px of the entity's top |
| Collision.BlockFromBelowNone | src/services/CollisionDetector.js:142-160 | Nothing is hit exactly when no column of the range has a hittable block |
| Collision.BlockFromBelowFirst | src/services/CollisionDetector.js:143-156 | A hit is the block of the first column with a hittable block; earlier columns have none |
| Collision.BlockFromBelowSkips | src/services/CollisionDetector.js:143-158 | Columns without a hittable block do not change where the scan stops |
| Collision.MarkHit | src/entities/Block.js:54-55 | Only the hit block's flag becomes set; every other block is unchanged |
| Collision.ResolveHorizontal | src/services/CollisionDetector.js:20-46 | The body is either unchanged or has only x moved and vx zeroed |
| Collision.HorizontalPushBack | src/services/CollisionDetector.js:20-46 | At rest, nothing changes. Moving right into a solid column, the right edge ends at that column's left edge, stopped and not moved forwards. Moving left into one, the left edge ends at its right edge, stopped. Otherwise the body is unchanged |
| Collision.ResolveVertical | src/services/CollisionDetector.js:52-90 | x, size and vx are kept; a grounded result has stopped falling and came from a non-rising body; a hit block is unhit and only a rising body hits one |
| Collision.VerticalLanding | src/services/CollisionDetector.js:52-73 | The grounded flag ends true exactly when vy was at least 0 and the row under the body has a solid or platform cell; then the bottom edge sits on that row and vy is 0; otherwise a non-rising body only loses the flag |
| Collision.VerticalRising | src/services/CollisionDetector.js:63-89 | A rising body hits the block `BlockFromBelow` finds, is never grounded, and is stopped under the row above only by that block or a solid cell, never by a platform |
| Collision.VerticalIgnoresGrounded | src/services/CollisionDetector.js:63 | The grounded flag is reset first, so its incoming value makes no difference |
| World.CollisionDetector.constructor | src/services/CollisionDetector.js:12-14 | The detector reads the given map |
| World.CollisionDetector.IsSolidTileInColumn | src/services/CollisionDetector.js:109-116 | The loop returns true exactly when some cell of the inclusive column range is solid |
| World.CollisionDetector.IsSolidTileInRow | src/services/CollisionDetector.js:125-132 | The loop returns true exactly when some cell of the inclusive row range is solid |
| World.CollisionDetector.IsPlatformTileInRow | src/services/CollisionDetector.js:92-100 | The loop returns true exactly when the entity is not rising and some cell of the range is a platform |
| World.CollisionDetector.CheckBlockCollisionFromBelow | src/services/CollisionDetector.js:142-160 | Returns true exactly when `BlockFromBelow` finds a block, and marks that one block hit and no other |
| World.CollisionDetector.CheckHorizontalCollisions | src/services/CollisionDetector.js:20-46 | The entity's body ends as `ResolveHorizontal` of its old body |
| World.CollisionDetector.CheckVerticalCollisions | src/services/CollisionDetector.js:52-90 | The entity ends as `ResolveVertical` prescribes, and exactly the block it reports is marked hit |
| World.CollisionDetector.LandIfSupported | src/services/CollisionDetector.js:65-73 | The falling branch: the body ends as the resolver prescribes and no block is hit |
| World.CollisionDetector.StopIfBlocked | src/services/CollisionDetector.js:74-89 | The rising branch: the body ends as the resolver prescribes and only the block it reports is marked hit |
| World.CollisionDetector.StopBelowRow | src/services/CollisionDetector.js:85-88 | A stopped body is put just below the row above it with vy 0; otherwise unchanged |
| Collision.UpdatePosition | src/entities/player/PlayerState.js:223-247 | The body's size is kept |
| Collision.UpdatePositionBounds | src/entities/player/PlayerState.js:223-247 | Ends with whole-pixel x and y, x at least 0 and at most `mapWidth*16 - w` when that bound is non-negative; each speed kept or zeroed; grounded only after not rising; a block hit only when rising and only if unhit |
| Collision.Settle | src/entities/player/PlayerState.js:236-246 | Only x and y change, both to whole pixels, x between 0 and the limit |
| Collision.ClampToMap | src/entities/player/PlayerState.js:237-243 | The clamped x lies in `[0, limit]`, and equals the rounded x when that already lies there |
| Collision.SolidRowMembers | src/entities/player/PlayerState.js:141-145 | One row of `getCollidingTiles` lists exactly its solid cells in the column range |
| Collision.SolidRowSorted | src/entities/player/PlayerState.js:141-145 | A row's cells come left to right |
| Collision.SolidCellsMembers | src/entities/player/PlayerState.js:138-148 | The rectangle's list holds exactly its solid cells, in both directions |
| Collision.SolidCellsSorted | src/entities/player/PlayerState.js:138-148 | The list is in strictly increasing row-major order |
| World.Player.GetCollidingTiles | src/entities/player/PlayerState.js:138-148 | The nested loop returns exactly the solid cells of the inclusive rectangle, in row-major order |
| World.Player.SolidCellsInRow | src/entities/player/PlayerState.js:141-145 | The inner loop returns the row's solid cells left to right |
| Physics.FloorDivBounds | src/services/CollisionDetector.js:22-29 | `Math.floor(a / d)` is the tile index q with `q*d <= a < (q+1)*d` |
| Physics.Round | src/entities/player/PlayerState.js:240-246 | The rounded value is within one half of the input |
| Physics.AccelerateRight | src/entities/player/PlayerState.js:172-177 | vx never exceeds maxSpeed and grows by at most the acceleration |
| Physics.AccelerateLeft | src/entities/player/PlayerState.js:179-184 | vx never drops below -maxSpeed and falls by at most the acceleration |
| Physics.Decelerate | src/entities/player/PlayerState.js:186-198 | The sign never flips, 0 stays 0, and the magnitude shrinks by the deceleration but not below 0 |
| Physics.SnapToRest | src/entities/player/PlayerState.js:169 | The speed ends 0 or at least 0.1 in magnitude, and only a speed below 0.1 is changed |
| Physics.HorizontalControl | src/entities/player/PlayerState.js:155-170 | The speed ends 0 or at least 0.1 in magnitude. With both or neither key held the facing is kept and the speed does not grow; A alone faces left, D alone faces right. The top speed is never exceeded |
| Physics.Fall | src/entities/player/PlayerState.js:207-215 | vy ends at most maxFallSpeed and at most `vy + gravity*dt`; with non-negative gravity and dt, a speed already under the cap never decreases |
| Physics.JumpRelease | src/entities/player/PlayerJumpingState.js:53-57 | Released while rising: vy is halved and stays negative; otherwise unchanged |
| Physics.ReleaseRepeats | src/entities/player/PlayerJumpingState.js:53-57 | After n released frames the upward speed is the start speed over 2^n, still negative |
| Physics.JumpBoost | src/entities/player/PlayerJumpingState.js:68-70 | With `0 <= jumpTime <= maxJumpTime` the boost lies between jumpPower and 0; it is the full jumpPower at time 0 and has faded to 0 at maxJumpTime |
| Physics.JumpBoostMonotone | src/entities/player/PlayerJumpingState.js:68-70 | Holding the jump key longer never strengthens the boost: over the allowed jump time the curve rises monotonically from jumpPower towards 0 |
| Physics.FadeBounds | src/entities/player/PlayerJumpingState.js:68-70 | The faded jump power lies between the full power and 0 over the allowed jump time |
| Physics.HoldJump | src/entities/player/PlayerJumpingState.js:63-75 | Held with time left: vy becomes the boost curve's value at the current jumpTime (so between jumpPower and 0) and jumpTime advances by dt; otherwise jumpTime resets to 0 and vy is kept |
| PlayerRules.Change | src/entities/player/PlayerIdlingState.js:23-27 | Sets the state and runs its `enter`: Idling zeroes both speeds; Walking marks the player grounded; Jumping sets jumpTime 0 and vy to the jump power; Growing makes the player big with height 32 and the top edge 8 px higher; Shrinking makes the player small and leaves the body alone; Falling and Skidding change nothing else. x, width, facing, movement flags and invincibility are always kept, and jumpTime is kept except on Jumping. The `enter`s are Idling.js:23-27, Walking.js:26-29, Jumping.js:25-30, Growing.js:12-17 and Shrinking.js:12-16 |
| PlayerRules.Gravity | src/entities/player/PlayerState.js:207-215 | Only vy changes: unchanged when grounded, otherwise capped at the maximum fall speed |
| PlayerRules.BaseUpdate | src/entities/player/PlayerState.js:27-31 | The physics step changes only the body |
| PlayerRules.BaseUpdateBounds | src/entities/player/PlayerState.js:27-31 | Ends on whole pixels with x at least 0, the size kept, and any hit block previously unhit |
| PlayerRules.Steer | src/entities/player/PlayerState.js:155-170 | Only vx and the facing change, and vx ends 0 or at least 0.1 in magnitude |
| PlayerRules.WalkingTransitions | src/entities/player/PlayerWalkingState.js:66-83 | Size, invincibility and x are kept in every case. Idle-worthy on the ground: Idling with zero velocity. Idle-worthy in the air: Falling with zero velocity, since idling zeroed vy and rules out a skid. Otherwise a skid flips the facing and enters Skidding with nothing else changed; in the air with vy < 0 the Jumping entry is applied (timer 0, vy = jumpPower) and with vy >= 0 Falling; on the ground with no skid nothing changes |
| PlayerRules.WalkingInput | src/entities/player/PlayerWalkingState.js:45-61 | Left is set exactly when A is held and right was not set; right exactly when D is held and left is not now set; never both; a press means Jumping |
| PlayerRules.WalkingUpdate | src/entities/player/PlayerWalkingState.js:35-40 | Keeps size and invincibility; the speed ends 0 or at least 0.1 in magnitude; never both movement flags |
| PlayerRules.JumpingInput | src/entities/player/PlayerJumpingState.js:53-57 | Only vy changes. Released while rising, vy is halved and stays negative; held, or not rising, nothing changes |
| PlayerRules.JumpingTransitions | src/entities/player/PlayerJumpingState.js:80-84 | vy at least 0 means Falling, otherwise the state is kept; body and jump timer untouched |
| PlayerRules.HandleJumping | src/entities/player/PlayerJumpingState.js:63-75 | Only vy and the jump timer change. Held with time left: vy becomes `JumpBoost` of the old timer (between the jump power and 0) and the timer advances by dt. Otherwise the timer resets to 0 and the body is kept |
| PlayerRules.JumpingUpdate | src/entities/player/PlayerJumpingState.js:41-48 | Keeps size and invincibility; ends in Jumping, Falling or the state it started in |
| PlayerRules.SkiddingInput | src/entities/player/PlayerSkiddingState.js:46-50 | A press means Jumping; otherwise nothing changes |
| PlayerRules.Skid | src/entities/player/PlayerSkiddingState.js:52-55 | Only vx changes; its magnitude never grows and its sign never flips; it ends 0 or at least 0.1 in magnitude |
| PlayerRules.SkiddingTransitions | src/entities/player/PlayerSkiddingState.js:60-71 | Below 0.1: Walking if A or D is held, else Idling; at 0.1 or more nothing changes |
| PlayerRules.SkiddingUpdate | src/entities/player/PlayerSkiddingState.js:36-41 | Keeps size and invincibility |
| PlayerRules.IdlingInput | src/entities/player/PlayerIdlingState.js:41-50 | Exactly one of A and D means Walking, even after a jump press; otherwise a press means Jumping and no press keeps the state |
| PlayerRules.IdlingUpdate | src/entities/player/PlayerIdlingState.js:33-36 | Keeps size and invincibility |
| PlayerRules.FallingTransitions | src/entities/player/PlayerFallingState.js:39-47 | Airborne: nothing changes; grounded: Idling below 0.1, Walking otherwise |
| PlayerRules.FallingUpdate | src/entities/player/PlayerFallingState.js:29-34 | Keeps size and invincibility |
| PlayerRules.GrowingTransitions | src/entities/player/PlayerGrowingState.js:31-35 | Nothing changes until the animation is done; then Idling with the size kept |
| PlayerRules.ShrinkingTransitions | src/entities/player/PlayerShrinkingState.js:27-33 | Nothing changes until the animation is done; then height 24, top edge 8 px lower, Idling |
| PlayerRules.GrowingUpdate | src/entities/player/PlayerGrowingState.js:23-26 | Keeps invincibility and everything a state update must keep |
| PlayerRules.ShrinkingUpdate | src/entities/player/PlayerShrinkingState.js:22-25 | Keeps invincibility and everything a state update must keep |
| PlayerRules.StateUpdate | src/entities/player/Player.js:107 | No state's update touches the size flag, the width or invincibility, or newly enters Growing or Shrinking |
| PlayerRules.SizeChangeIgnoresInput | src/entities/player/PlayerGrowingState.js:23-26 | While growing or shrinking, the keyboard makes no difference |
| PlayerRules.Grow | src/entities/player/Player.js:163-179 | State Growing, big, growing flag set, height 32, top edge 8 px higher; nothing else changes |
| PlayerRules.GrowKeepsFeet | src/entities/player/PlayerGrowingState.js:15-16 | Growing from height 24 keeps the bottom edge in place |
| PlayerRules.Shrink | src/entities/player/Player.js:182-199 | State Shrinking, small, and invincible for 2 s at once; body and everything else unchanged |
| PlayerRules.GrowThenShrinkRestores | src/entities/player/PlayerShrinkingState.js:29-30 | Growing and then finishing a shrink restores height 24 and the original y, a net zero shift |
| PlayerRules.Die | src/entities/player/Player.js:158-161 | Back at the start position with invincibility cleared; nothing else changes |
| PlayerRules.Tick | src/entities/player/Player.js:110-115 | Only while invincible: the timer drops by dt, and invincibility lasts exactly while it stays positive |
| PlayerRules.TotalNonNegative | src/entities/player/Player.js:111 | Elapsed time over non-negative frames is non-negative |
| PlayerRules.InvincibilityExpires | src/entities/player/Player.js:110-115 | Over non-negative frames, a player with a running timer stays invincible exactly while the elapsed time is below it |
| PlayerRules.GoombaContact | src/entities/Goomba.js:179-199 | A stomp kills the goomba and leaves the player alone; otherwise a live goomba shrinks a big player or kills a small one, and a dead one does nothing |
| PlayerRules.GoombaSweepDead | src/entities/player/Player.js:140-144 | The dead flags stay aligned with the goombas |
| PlayerRules.GoombaSweepOnlyTouched | src/entities/player/Player.js:140-144 | No goomba is revived, and goombas before the sweep point are untouched |
| PlayerRules.GoombaSweepUntouched | src/entities/player/Player.js:140-144 | With no overlap the sweep changes neither the player nor any goomba |
| PlayerRules.GoombaSweepUntouchedIf | src/entities/player/Player.js:140-144 | A sweep of the whole list leaves the player alone when it overlaps no goomba |
| PlayerRules.GoombaCheck | src/entities/player/Player.js:138-145 | An invincible player is unchanged, and so is one that overlaps no goomba |
| PlayerRules.GoombaCheckDead | src/entities/player/Player.js:138-145 | No flag changes for an invincible player, and no goomba is revived |
| PlayerRules.ShrinkThenDieInOneSweep | src/entities/player/Player.js:138-145 | Invincibility is looked at only before the sweep, so a big player that runs into two live goombas without stomping either shrinks on the first and dies on the second |
| PlayerRules.MushroomContact | src/entities/Mushroom.js:137-146 | The first contact collects the mushroom and grows only a small player; later contacts change nothing |
| PlayerRules.MushroomSweepStep | src/entities/player/Player.js:148-152 | One visit of the mushroom loop is one step of the sweep: the sweep from mushroom i equals the sweep from i+1 after mushroom i reacts |
| PlayerRules.MushroomSweepCollected | src/entities/player/Player.js:147-153 | The collected flags stay aligned with the mushrooms |
| PlayerRules.MushroomSweepKeepsCollected | src/entities/player/Player.js:147-153 | A collected mushroom stays collected, and those before the sweep point are untouched |
| PlayerRules.MushroomSweepCollectsFirst | src/entities/player/Player.js:147-153 | The first uncollected mushroom the player overlaps from the sweep point on ends collected |
| PlayerRules.MushroomSweepBigUnchanged | src/entities/player/Player.js:147-153 | A big player is never changed by mushrooms |
| PlayerRules.MushroomSweepGrows | src/entities/player/Player.js:147-153 | A small player ends big exactly when some uncollected mushroom overlapped it |
| Creatures.Land | src/entities/Goomba.js:92-96 | The fall stops and y snaps to the top of its own cell; x, size and direction are kept |
| Creatures.LandingOnGroundRow | src/entities/Goomba.js:92-121 | A tile-high creature that lands stands exactly on top of the row its probe found |
| Creatures.FloorDivUnique | src/entities/Goomba.js:93-94 | A coordinate determines its tile index |
| Creatures.Turn | src/entities/Goomba.js:99-101 | Direction is negated exactly when a wall is ahead, so a direction of 1 or -1 stays 1 or -1 |
| Creatures.GoombaCollisions | src/entities/Goomba.js:90-102 | Grounded: the fall stops and y snaps to a tile multiple; airborne: y and speed are kept; x and size are kept; direction stays 1 or -1 |
| Creatures.Descend | src/entities/Goomba.js:77-78 | Gravity is added before y moves by the new speed |
| Creatures.Walk | src/entities/Goomba.js:81 | x moves by direction times 30 px/s times dt; nothing else changes |
| Creatures.GoombaMove | src/entities/Goomba.js:75-85 | x is that of the fallen-and-walked goomba; landing stops the fall (y no further down than the integrated y); otherwise y and speed are as integrated |
| Creatures.MushroomCollisions | src/entities/Mushroom.js:96-105 | As the goomba's, with the ground snap to the map's tile size |
| Creatures.MushroomMove | src/entities/Mushroom.js:66-78 | While spawning x is unchanged; otherwise x walks one frame; direction stays 1 or -1 |
| World.Coin.constructor | src/entities/Coin.js:19-31 | A new coin is not collected and is block-spawned exactly as requested |
| World.Coin.OnCollideWithPlayer | src/entities/Coin.js:52-56 | Collected afterwards exactly when it already was or it is a map coin, so a block-spawned coin is never collected and repeated contact changes nothing |
| World.Coin.Collect | src/entities/Coin.js:61-64 | The coin is collected |
| World.Block.constructor | src/entities/Block.js:23-40 | A new block is tile-sized, not hit and shows its first sprite |
| World.Block.Hit | src/entities/Block.js:53-80 | Reports true exactly when the block was not hit before, and the block is hit afterwards, so only the first call reports true |
| World.Block.FinishBonk | src/entities/Block.js:58-76 | The bonk returns the block to its y and shows the used sprite. A roll below 0.4 appends one mushroom above the block and leaves the coins alone; otherwise one block-spawned coin is appended and the mushrooms are left alone |
| World.Block.SpawnMushroom | src/entities/Block.js:86-96 | Appends one fresh mushroom at (x, y - h), about to rise, and keeps the earlier mushrooms |
| World.Block.SpawnCoin | src/entities/Block.js:98-104 | Appends one fresh block-spawned coin one tile above the block |
| World.Block.FinishCoinSpawn | src/entities/Block.js:107-122 | The coin ends 10 px above where it started and leaves the list; every other coin stays, in order |
| World.Goomba.constructor | src/entities/Goomba.js:26-60 | A new goomba walks right, at rest vertically, alive |
| World.Goomba.OnGround | src/entities/Goomba.js:108-121 | Agrees with `GoombaGrounded`: a solid cell under either bottom corner |
| World.Goomba.IsCollidingWithWall | src/entities/Goomba.js:127-141 | Agrees with `WallAhead`: a solid cell at the leading edge in the top or bottom row |
| World.Goomba.CheckCollisions | src/entities/Goomba.js:90-102 | The goomba ends as `GoombaCollisions` prescribes |
| World.Goomba.UpdateMovement | src/entities/Goomba.js:75-85 | The goomba ends as `GoombaMove` prescribes |
| World.Goomba.Die | src/entities/Goomba.js:146-148 | The goomba is dead, and stays so on a repeat |
| World.Goomba.OnCollideWithPlayer | src/entities/Goomba.js:179-199 | The player and the goomba's dead flag end as `GoombaContact` prescribes |
| World.Mushroom.constructor | src/entities/Mushroom.js:22-46 | A new mushroom is at rest, facing right, spawning, shown and not collected, with its rise target one height up |
| World.Mushroom.OnGround | src/entities/Mushroom.js:107-116 | Agrees with `MushroomGrounded`, whose right probe is `x + w` with no -1 |
| World.Mushroom.IsCollidingWithWall | src/entities/Mushroom.js:121-132 | Agrees with `WallAhead` |
| World.Mushroom.CheckCollisions | src/entities/Mushroom.js:96-105 | The mushroom ends as `MushroomCollisions` prescribes |
| World.Mushroom.Update | src/entities/Mushroom.js:66-78 | A collected mushroom does not move; any other ends as `MushroomMove` prescribes |
| World.Mushroom.OnCollideWithPlayer | src/entities/Mushroom.js:137-146 | The player and the collected flag end as `MushroomContact` prescribes |
| World.Mushroom.FinishSpawning | src/entities/Mushroom.js:53-59 | At the rise target and no longer spawning |
| World.Mushroom.RunLifetime | src/entities/Mushroom.js:156-164 | Opacity stays 0 or 1 through the flicker, and the mushroom ends collected |
| World.Player.constructor | src/entities/player/Player.js:35-100 | Starts at the given position and size, at rest, airborne, facing right, small, not invincible, with jumpTime 0, in Idling; the start position is remembered |
| World.Player.Change | src/entities/player/PlayerWalkingState.js:59 | Ends as `PlayerRules.Change` prescribes |
| World.Player.EnterIdling | src/entities/player/PlayerIdlingState.js:23-27 | Ends as `PlayerRules.Change` into Idling prescribes, which zeroes both speeds |
| World.Player.EnterWalking | src/entities/player/PlayerWalkingState.js:26-29 | Ends as `PlayerRules.Change` into Walking prescribes, which marks the player grounded |
| World.Player.EnterJumping | src/entities/player/PlayerJumpingState.js:25-30 | Ends as `PlayerRules.Change` into Jumping prescribes: jumpTime 0 and vy the jump power |
| World.Player.EnterGrowing | src/entities/player/PlayerGrowingState.js:12-17 | Ends as `PlayerRules.Change` into Growing prescribes: big, height 32, y up by 8 |
| World.Player.EnterShrinking | src/entities/player/PlayerShrinkingState.js:12-16 | Ends as `PlayerRules.Change` into Shrinking prescribes: small, with height and position untouched |
| World.Player.Grow | src/entities/player/Player.js:163-165 | Ends as `PlayerRules.Grow` prescribes: Growing, big, 32 px tall and 8 px higher, nothing else changed |
| World.Player.Shrink | src/entities/player/Player.js:182-199 | Ends as `PlayerRules.Shrink` prescribes: Shrinking, small, invincible for 2 s, nothing else changed |
| World.Player.Die | src/entities/player/Player.js:158-161 | Ends as `PlayerRules.Die` prescribes |
| World.Player.Surroundings | src/entities/player/PlayerState.js:20 | What the physics step reads of the map, with the blocks as values |
| World.Player.MoveRight | src/entities/player/PlayerState.js:172-177 | vx ends as `AccelerateRight` |
| World.Player.MoveLeft | src/entities/player/PlayerState.js:179-184 | vx ends as `AccelerateLeft` |
| World.Player.SlowDown | src/entities/player/PlayerState.js:186-198 | vx ends as `Decelerate` |
| World.Player.HandleHorizontalMovement | src/entities/player/PlayerState.js:155-170 | Ends as `Steer` prescribes |
| World.Player.ApplyGravity | src/entities/player/PlayerState.js:207-215 | Ends as `Gravity` prescribes |
| World.Player.UpdatePosition | src/entities/player/PlayerState.js:223-247 | The body ends as `Collision.UpdatePosition` of the old body, and exactly the reported block is marked hit |
| World.Player.MoveAcross | src/entities/player/PlayerState.js:229-230 | The horizontal move and its resolution |
| World.Player.MoveDown | src/entities/player/PlayerState.js:233-234 | The vertical move and its resolution, marking exactly the reported block hit |
| World.Player.DropAndSettle | src/entities/player/PlayerState.js:233-246 | The vertical move, then the clamp and the rounding |
| World.Player.ClampAndRound | src/entities/player/PlayerState.js:236-246 | x kept inside the map, both coordinates rounded |
| World.Player.BaseUpdate | src/entities/player/PlayerState.js:27-31 | Ends as `PlayerRules.BaseUpdate` prescribes, and the hit block is marked |
| World.Player.CheckWalkingTransitions | src/entities/player/PlayerWalkingState.js:66-83 | Runs the idle, skid (with one facing flip) and airborne checks in turn and ends in the pose `WalkingTransitions` prescribes for each case (idle, idle-in-air to Falling, skid, jump, fall, unchanged) |
| World.Player.HandleWalkingInput | src/entities/player/PlayerWalkingState.js:45-61 | Ends as `WalkingInput` prescribes |
| World.Player.UpdateWalking | src/entities/player/PlayerWalkingState.js:35-40 | Ends as `WalkingUpdate` prescribes |
| World.Player.HandleJumpingInput | src/entities/player/PlayerJumpingState.js:53-57 | Ends as `JumpingInput` prescribes |
| World.Player.HandleJumping | src/entities/player/PlayerJumpingState.js:63-75 | Ends as `PlayerRules.HandleJumping` prescribes: with jump held and time left vy follows the boost curve and the timer advances, otherwise the timer resets |
| World.Player.CheckJumpingTransitions | src/entities/player/PlayerJumpingState.js:80-84 | Ends as `JumpingTransitions` prescribes |
| World.Player.UpdateJumping | src/entities/player/PlayerJumpingState.js:41-48 | Ends as `JumpingUpdate` prescribes |
| World.Player.SteerJump | src/entities/player/PlayerJumpingState.js:44-47 | Release, steering, transitions and the held jump, in that order |
| World.Player.HandleSkiddingInput | src/entities/player/PlayerSkiddingState.js:46-50 | Ends as `SkiddingInput` prescribes |
| World.Player.HandleSkidding | src/entities/player/PlayerSkiddingState.js:52-55 | Ends as `Skid` prescribes |
| World.Player.CheckSkiddingTransitions | src/entities/player/PlayerSkiddingState.js:60-71 | Ends as `SkiddingTransitions` prescribes |
| World.Player.UpdateSkidding | src/entities/player/PlayerSkiddingState.js:36-41 | Ends as `SkiddingUpdate` prescribes |
| World.Player.HandleIdlingInput | src/entities/player/PlayerIdlingState.js:41-50 | Ends as `IdlingInput` prescribes |
| World.Player.UpdateIdling | src/entities/player/PlayerIdlingState.js:33-36 | Ends as `IdlingUpdate` prescribes |
| World.Player.CheckFallingTransitions | src/entities/player/PlayerFallingState.js:39-47 | Ends as `FallingTransitions` prescribes |
| World.Player.UpdateFalling | src/entities/player/PlayerFallingState.js:29-34 | Ends as `FallingUpdate` prescribes |
| World.Player.CheckGrowingTransitions | src/entities/player/PlayerGrowingState.js:31-35 | Ends as `GrowingTransitions` prescribes |
| World.Player.CheckShrinkingTransitions | src/entities/player/PlayerShrinkingState.js:27-33 | Ends as `ShrinkingTransitions` prescribes |
| World.Player.UpdateGrowing | src/entities/player/PlayerGrowingState.js:23-26 | Ends as `GrowingUpdate` prescribes |
| World.Player.UpdateShrinking | src/entities/player/PlayerShrinkingState.js:22-25 | Ends as `ShrinkingUpdate` prescribes |
| World.Player.StateMachineUpdate | src/entities/player/Player.js:107 | The current state's update, as `StateUpdate` prescribes |
| World.Player.Update | src/entities/player/Player.js:106-117 | The state step, then coins, mushrooms, the invincibility tick and goombas, each seeing what the previous left. The blocks, the coin list, the mushroom flags, the goomba flags and the player end exactly as that composition prescribes. A coin ends collected exactly when it already was, or it was spliced out and is a map coin |
| World.Player.Contacts | src/entities/player/Player.js:108-116 | The part after the state step. The coin list loses exactly the masked hits, and a coin ends collected exactly when it already was or it was removed and is a map coin. Mushroom flags, goomba flags and the player end as the sweeps prescribe. Blocks are untouched |
| World.Player.CreatureContacts | src/entities/player/Player.js:109-116 | Mushrooms, the tick, then goombas |
| World.Player.CheckMushroomCollision | src/entities/player/Player.js:147-153 | The player and the flags end as `MushroomSweep` prescribes; blocks and goombas untouched |
| World.Player.VisitMushroom | src/entities/player/Player.js:148-152 | One callback: one step of the sweep |
| World.Player.CountDownInvincibility | src/entities/player/Player.js:110-115 | Ends as `Tick` prescribes |
| World.Player.CheckGoombaCollision | src/entities/player/Player.js:138-145 | Ends as `GoombaCheck` and `GoombaCheckDead` prescribe; blocks and mushrooms untouched |
| World.Player.SweepGoombas | src/entities/player/Player.js:140-144 | The loop over the goombas, as `GoombaSweep` prescribes |
| World.Player.VisitGoomba | src/entities/player/Player.js:140-143 | One callback: one step of the sweep |
| World.Player.CheckCoinCollision | src/entities/player/Player.js:126-133 | The coin list ends with exactly the `RemovedMask` positions of the hits removed. A coin ends collected exactly when it already was, or it was removed and is a map coin. Blocks, mushrooms and goombas are untouched |
| World.Player.ScanCoins | src/entities/player/Player.js:127-132 | The loop over the shrinking list leaves exactly the unmasked coins and collects the removed map coins |
| World.Player.VisitCoin | src/entities/player/Player.js:127-131 | One callback preserves the scan invariant |
| World.Player.TakeCoin | src/entities/player/Player.js:128-131 | The hit branch: the coin reacts and is spliced out; the scan passes its successor |
| World.Player.CollectAt | src/entities/player/Player.js:129 | The removed coin reacts to the player |
| World.Player.ScanCollected | src/entities/player/Player.js:126-133 | At the end of the scan, exactly the removed map coins have become collected |
| World.Player.PassCollected | src/entities/player/Player.js:127-128 | Passing a kept coin changes no flag |

## Left out

- Rendering, sprites, animation frames and sounds are left out: `render`, `renderDebug`, `renderGrid`, the sprite tables and `sounds.play`. An animation's `isDone()` is the input `animationDone`.
- Timer tweens and async waits are left out. Only their end states are kept: `Block.FinishBonk`, `Block.FinishCoinSpawn`, `Mushroom.FinishSpawning` and `Mushroom.RunLifetime` each stand for the state after every await. Easing, durations and the interleaving of other frames with a pending tween are not modelled.
- `Block.update`, `Coin.update` and the walk-animation steps of goombas and mushrooms only advance animations, so they are not modelled.
- `Map.getTileAt` and the map's other layers are drawn only, so they are not modelled. The foreground layer's width and height are taken to be the map's.
- Camera, `PlayState`, `main.js` and the browser globals are I/O and are not part of this model.
- `Entity.collidesWith` delegates to a collision library that is not part of this model; it is the `overlaps` parameter.
- `Math.random()` is the `roll` parameter.
- The keyboard library, the state-machine library, the animation library, the timer library and the vector library are not part of this model.
  - The keyboard is an `Input` record per frame.
  - The state machine is the `state` field. `change` runs the new state's `enter`, since every `exit` only swaps the animation.
  - The start state is Idling, the last state added, and its `enter` is not run.
- The player tuning file is not part of this model. Its constants are a `Config` value; `ValidConfig` states the signs the game relies on, and `maxJumpTime` must be non-zero because the source divides by it.
- Every player state builds its own `CollisionDetector` over the same map. They are stateless, so the model uses one.
- `isGrowing` is set by `grow` and read nowhere in the core; it is kept as a field, and the model proves that `grow` sets it and that the contract of every other pose operation keeps it.
- Goomba `deathTimer` and `deathDuration` are set in the constructor and never read, so they are not modelled.
- Layers.Layer.constructor: requires the layer data to hold exactly width times height ids. The source does not check this: with short data an in-bounds `getTile` yields undefined, and with long data the extra ids are ignored. That error path is not modelled.
- World.Map.constructor: requires the same of the map file's foreground data. With short data `isSolidTileAt` would throw on a missing tile; this error path is not modelled.
- JavaScript numbers are doubles; the model uses exact `real` arithmetic.
- World.Mushroom.RunLifetime: the loop adds 0.1 to an elapsed time until it reaches 3. In doubles the thirtieth addition falls just short of 3, so the source may flicker a thirty-first time. The contract therefore states only that the opacity stays 0 or 1, not its final value.

Where the written description of the game and the code disagree, the model follows the code:

- Releasing jump halves the upward speed on every frame while rising, not just once (src/entities/player/PlayerJumpingState.js:53-57).
- Invincibility is granted by `shrink` itself, when the shrink starts (src/entities/player/Player.js:197-198).
- Only the start of `checkGoombaCollision` looks at invincibility, so a second goomba in the same sweep still hurts (`PlayerRules.ShrinkThenDieInOneSweep`).
- A block-spawned coin the player touches is spliced out of the list without being collected (src/entities/player/Player.js:128-130, src/entities/Coin.js:53).
- `Mushroom.onGround` probes its right column at `x + w`, with no `-1` (src/entities/Mushroom.js:110). The horizontal resolver's right column is also `x + w` (src/services/CollisionDetector.js:23-25).
