/**
 * The live objects of the game world: the map with its foreground layer and
 * the entity lists it owns (src/services/Map.js), blocks, coins, goombas,
 * mushrooms, the collision detector and the player. They refer to one
 * another, so they share this module. Every method is proved to leave the
 * objects as the value-level functions of modules Collision, Creatures and
 * PlayerRules prescribe.
 */
module World {
  import opened Wrappers
  import opened Tiles
  import opened Layers
  import opened Placement
  import opened Sequences
  import opened Physics
  import opened Collision
  import opened Creatures
  import opened PlayerRules

  /** Chance of a mushroom (rather than a coin) when a block is hit. */
  const MushroomChance: real := 0.4
  /** Seconds a mushroom lives before it starts to flicker. */
  const Lifetime: real := 7.0
  /** Seconds it flickers, and how long each flicker phase lasts. */
  const FlickerDuration: real := 3.0
  const FlickerInterval: real := 0.1

  // ---- Coin (src/entities/Coin.js) ----

  class Coin {
    var x: real
    var y: real
    const w: int
    const h: int
    var collected: bool
    const isBlockSpawned: bool

    constructor (x: real, y: real, w: int, h: int, isBlockSpawned: bool)
      ensures this.x == x && this.y == y && this.w == w && this.h == h
      ensures !collected && this.isBlockSpawned == isBlockSpawned
    {
      this.x := x;
      this.y := y;
      this.w := w;
      this.h := h;
      collected := false;
      this.isBlockSpawned := isBlockSpawned;
    }

    function BoxOf(): Box
      reads this`x, this`y
    {
      Box(x, y, w, h)
    }

    /** Only a map coin can be collected; a coin popping out of a block never is. */
    method OnCollideWithPlayer()
      modifies this`collected
      ensures collected <==> old(collected) || !isBlockSpawned
    {
      if !collected && !isBlockSpawned {
        Collect();
      }
    }

    method Collect()
      modifies this`collected
      ensures collected
    {
      collected := true;
    }
  }

  // ---- Block (src/entities/Block.js) ----

  class Block {
    const x: real
    var y: real
    const w: int
    const h: int
    var isHit: bool
    /** Which of the block's two sprites is shown: 0 before the hit, 1 after. */
    var frame: int
    const tileMap: Map

    constructor (x: real, y: real, tileMap: Map)
      ensures this.x == x && this.y == y && w == TileSize && h == TileSize
      ensures !isHit && frame == 0 && this.tileMap == tileMap
    {
      this.x := x;
      this.y := y;
      w := TileSize;
      h := TileSize;
      isHit := false;
      frame := 0;
      this.tileMap := tileMap;
    }

    function View(): BlockView
      reads this
    {
      BlockView(Box(x, y, w, h), isHit)
    }

    /**
     * The synchronous part of `hit`: the first hit marks the block and
     * reports true; later hits do nothing and report false. The rest of the
     * first hit runs later, as `FinishBonk`.
     */
    method Hit() returns (r: bool)
      modifies this`isHit
      ensures r == !old(isHit)
      ensures isHit
    {
      if !isHit {
        isHit := true;
        return true;
      }
      return false;
    }

    /**
     * What `hit` does once its two bump tweens have ended: the block is back
     * where it was, shows its used sprite, and releases a mushroom when the
     * roll is below 0.4, a coin otherwise.
     */
    method FinishBonk(roll: real) returns (coin: Option<Coin>)
      requires tileMap.Valid() && isHit
      modifies this`y, this`frame, tileMap`mushrooms, tileMap`coins
      ensures tileMap.Valid() && y == old(y) && frame == 1
      ensures roll < MushroomChance ==>
        (coin.None? && tileMap.coins == old(tileMap.coins)
         && |tileMap.mushrooms| == |old(tileMap.mushrooms)| + 1 && tileMap.mushrooms[..|old(tileMap.mushrooms)|] == old(tileMap.mushrooms)
         && SpawnedMushroom(tileMap.mushrooms[|old(tileMap.mushrooms)|])
         && fresh(tileMap.mushrooms[|old(tileMap.mushrooms)|]))
      ensures roll >= MushroomChance ==>
        (coin.Some? && fresh(coin.value) && tileMap.mushrooms == old(tileMap.mushrooms)
         && tileMap.coins == old(tileMap.coins) + [coin.value] && SpawnedCoin(coin.value))
    {
      y := y - 5.0;
      y := y + 5.0;
      frame := 1;
      if roll < MushroomChance {
        SpawnMushroom();
        coin := None;
      } else {
        var c := SpawnCoin();
        coin := Some(c);
      }
    }

    /** A mushroom as `spawnMushroom` creates it: one block height above this block, about to rise by its own height. */
    ghost predicate SpawnedMushroom(m: Mushroom)
      reads this, m
    {
      m.x == x && m.y == y - h as real && m.w == TileSize && m.h == TileSize
      && m.spawnTargetY == m.y - m.h as real && m.tileMap == tileMap
      && m.NewlySpawned()
    }

    /** A coin as `spawnCoin` creates it: one tile above this block, marked block-spawned. */
    ghost predicate SpawnedCoin(c: Coin)
      reads this, c
    {
      c.x == x && c.y == y - TileSize as real && c.w == TileSize && c.h == TileSize
      && c.isBlockSpawned && !c.collected
    }

    method SpawnMushroom()
      requires tileMap.Valid()
      modifies tileMap`mushrooms
      ensures tileMap.Valid()
      ensures |tileMap.mushrooms| == |old(tileMap.mushrooms)| + 1 && tileMap.mushrooms[..|old(tileMap.mushrooms)|] == old(tileMap.mushrooms)
      ensures fresh(tileMap.mushrooms[|old(tileMap.mushrooms)|]) && SpawnedMushroom(tileMap.mushrooms[|old(tileMap.mushrooms)|])
    {
      var m := new Mushroom(x, y - h as real, TileSize, TileSize, tileMap);
      tileMap.mushrooms := tileMap.mushrooms + [m];
    }

    /** The synchronous part of `spawnCoin`: the new coin joins the map's list; `FinishCoinSpawn` is the rest. */
    method SpawnCoin() returns (coin: Coin)
      requires tileMap.Valid()
      modifies tileMap`coins
      ensures tileMap.Valid() && fresh(coin)
      ensures tileMap.coins == old(tileMap.coins) + [coin] && SpawnedCoin(coin)
    {
      coin := new Coin(x, y - TileSize as real, TileSize, TileSize, true);
      tileMap.coins := tileMap.coins + [coin];
    }

    /**
     * The rest of `spawnCoin`, once the coin has risen 30 px and dropped back
     * 20 px: that coin leaves the map's list, every other coin stays, in order.
     */
    method FinishCoinSpawn(coin: Coin)
      requires tileMap.Valid()
      modifies coin`y, tileMap`coins
      ensures tileMap.Valid()
      ensures coin.y == old(coin.y) - 10.0
      ensures tileMap.coins == Without(old(tileMap.coins), coin)
      ensures coin !in tileMap.coins
    {
      coin.y := coin.y - 30.0;
      coin.y := coin.y + 20.0;
      WithoutDistinct(tileMap.coins, coin);
      tileMap.coins := Without(tileMap.coins, coin);
    }
  }

  // ---- Goomba (src/entities/Goomba.js) ----

  class Goomba {
    var x: real
    var y: real
    const w: int
    const h: int
    var verticalSpeed: real
    var direction: int
    var isDead: bool
    const tileMap: Map

    constructor (x: real, y: real, w: int, h: int, tileMap: Map)
      ensures this.x == x && this.y == y && this.w == w && this.h == h && this.tileMap == tileMap
      ensures direction == 1 && verticalSpeed == 0.0 && !isDead
    {
      this.x := x;
      this.y := y;
      this.w := w;
      this.h := h;
      this.tileMap := tileMap;
      direction := 1;
      verticalSpeed := 0.0;
      isDead := false;
    }

    function Motion(): Critter
      reads this
    {
      Critter(x, y, w, h, verticalSpeed, direction)
    }

    function BoxOf(): Box
      reads this
    {
      Box(x, y, w, h)
    }

    /** `onGround`, asked of the live map. */
    function OnGround(): (r: bool)
      reads this, tileMap, tileMap.layer
      requires tileMap.Valid()
      ensures r == GoombaGrounded(tileMap.Snapshot(), Motion())
    {
      var bottomTile := FloorDiv(y + h as real, TileSize);
      var leftTile := FloorDiv(x, TileSize);
      var rightTile := FloorDiv(x + w as real - 1.0, TileSize);
      tileMap.IsSolidTileAt(leftTile, bottomTile) || tileMap.IsSolidTileAt(rightTile, bottomTile)
    }

    /** `isCollidingWithWall`, asked of the live map. */
    function IsCollidingWithWall(): (r: bool)
      reads this, tileMap, tileMap.layer
      requires tileMap.Valid()
      ensures r == WallAhead(tileMap.Snapshot(), Motion())
    {
      var topTile := FloorDiv(y, TileSize);
      var bottomTile := FloorDiv(y + h as real - 1.0, TileSize);
      var sideTile := FloorDiv(x + (if direction > 0 then w else 0) as real, TileSize);
      tileMap.IsSolidTileAt(sideTile, topTile) || tileMap.IsSolidTileAt(sideTile, bottomTile)
    }

    method CheckCollisions()
      requires tileMap.Valid()
      modifies this`y, this`verticalSpeed, this`direction
      ensures Motion() == GoombaCollisions(tileMap.Snapshot(), old(Motion()))
    {
      if OnGround() {
        y := (FloorDiv(y, TileSize) * TileSize) as real;
        verticalSpeed := 0.0;
      }
      if IsCollidingWithWall() {
        direction := direction * -1;
      }
    }

    /** `update`: the movement step (the walk animation is rendering). */
    method UpdateMovement(dt: real)
      requires tileMap.Valid()
      modifies this`x, this`y, this`verticalSpeed, this`direction
      ensures Motion() == GoombaMove(tileMap.Snapshot(), old(Motion()), dt)
    {
      ghost var moved := Walk(Descend(Motion(), dt), dt);
      verticalSpeed := verticalSpeed + CreatureGravity * dt;
      y := y + verticalSpeed * dt;
      x := x + direction as real * WalkSpeed * dt;
      assert Motion() == moved;
      CheckCollisions();
    }

    method Die()
      modifies this`isDead
      ensures isDead
    {
      isDead := true;
    }

    /** A stomp kills this goomba; otherwise a live goomba shrinks a big player and kills a small one. */
    method OnCollideWithPlayer(player: Player)
      modifies this`isDead, player
      ensures var c := GoombaContact(old(player.AsPose()), BoxOf(), old(isDead), player.initialX, player.initialY, player.cfg);
        player.AsPose() == c.pose && isDead == (old(isDead) || c.flag)
    {
      var goombaTopQuarter := y + h as real * 0.25;
      var playerBottomQuarter := player.y + player.h as real * 0.9;
      if playerBottomQuarter <= goombaTopQuarter {
        Die();
      } else if !isDead {
        if player.isBig {
          player.Shrink();
        } else {
          player.Die();
        }
      }
    }
  }

  // ---- Mushroom (src/entities/Mushroom.js) ----

  class Mushroom {
    var x: real
    var y: real
    const w: int
    const h: int
    var verticalSpeed: real
    var direction: int
    var isCollected: bool
    var isSpawning: bool
    /** 1 while shown, 0 during the off phase of the flicker. */
    var opacity: int
    /** Where the rising tween started in the constructor ends: one mushroom height up. */
    const spawnTargetY: real
    const tileMap: Map

    constructor (x: real, y: real, w: int, h: int, tileMap: Map)
      ensures this.x == x && this.y == y && this.w == w && this.h == h && this.tileMap == tileMap
      ensures spawnTargetY == y - h as real
      ensures NewlySpawned()
    {
      this.x := x;
      this.y := y;
      this.w := w;
      this.h := h;
      this.tileMap := tileMap;
      verticalSpeed := 0.0;
      direction := 1;
      isCollected := false;
      isSpawning := true;
      opacity := 1;
      spawnTargetY := y - h as real;
    }

    /** The state the constructor leaves behind: at rest, facing right, rising out of the block, shown. */
    ghost predicate NewlySpawned()
      reads this
    {
      verticalSpeed == 0.0 && direction == 1 && !isCollected && isSpawning && opacity == 1
    }

    function Motion(): Critter
      reads this
    {
      Critter(x, y, w, h, verticalSpeed, direction)
    }

    function BoxOf(): Box
      reads this
    {
      Box(x, y, w, h)
    }

    /** `onGround`: the right probe is one pixel past the box. */
    function OnGround(): (r: bool)
      reads this, tileMap, tileMap.layer
      requires tileMap.Valid()
      ensures r == MushroomGrounded(tileMap.Snapshot(), Motion())
    {
      var bottomTile := FloorDiv(y + h as real, TileSize);
      var leftTile := FloorDiv(x, TileSize);
      var rightTile := FloorDiv(x + w as real, TileSize);
      tileMap.IsSolidTileAt(leftTile, bottomTile) || tileMap.IsSolidTileAt(rightTile, bottomTile)
    }

    function IsCollidingWithWall(): (r: bool)
      reads this, tileMap, tileMap.layer
      requires tileMap.Valid()
      ensures r == WallAhead(tileMap.Snapshot(), Motion())
    {
      var topTile := FloorDiv(y, TileSize);
      var bottomTile := FloorDiv(y + h as real - 1.0, TileSize);
      var sideTile := FloorDiv(x + (if direction > 0 then w else 0) as real, TileSize);
      tileMap.IsSolidTileAt(sideTile, topTile) || tileMap.IsSolidTileAt(sideTile, bottomTile)
    }

    /** The ground snap uses the map's tile size; the probes use `TileSize`. */
    method CheckCollisions()
      requires tileMap.Valid()
      modifies this`y, this`verticalSpeed, this`direction
      ensures Motion() == MushroomCollisions(tileMap.Snapshot(), tileMap.tileSize, old(Motion()))
    {
      if OnGround() {
        y := (FloorDiv(y, tileMap.tileSize) * tileMap.tileSize) as real;
        verticalSpeed := 0.0;
      }
      if IsCollidingWithWall() {
        direction := direction * -1;
      }
    }

    /** A collected mushroom no longer moves; otherwise it falls, walks once it has risen out of its block, and collides. */
    method Update(dt: real)
      requires tileMap.Valid()
      modifies this`x, this`y, this`verticalSpeed, this`direction
      ensures old(isCollected) ==> Motion() == old(Motion())
      ensures !old(isCollected) ==> Motion() == MushroomMove(tileMap.Snapshot(), tileMap.tileSize, old(Motion()), isSpawning, dt)
    {
      if isCollected {
        return;
      }
      ghost var fallen := Descend(Motion(), dt);
      verticalSpeed := verticalSpeed + CreatureGravity * dt;
      y := y + verticalSpeed * dt;
      assert Motion() == fallen;
      if !isSpawning {
        x := x + direction as real * WalkSpeed * dt;
        assert Motion() == Walk(fallen, dt);
      }
      CheckCollisions();
    }

    /** The first contact collects the mushroom, and grows the player if it is small. */
    method OnCollideWithPlayer(player: Player)
      modifies this`isCollected, player
      ensures var c := MushroomContact(old(player.AsPose()), old(isCollected), player.cfg);
        player.AsPose() == c.pose && isCollected == c.flag
    {
      if !isCollected {
        isCollected := true;
        if !player.isBig {
          player.Grow();
        }
      }
    }

    /** The end of the rising tween in `initMushroom`: at the target height, no longer spawning. */
    method FinishSpawning()
      modifies this`y, this`isSpawning
      ensures y == spawnTargetY && !isSpawning
    {
      y := spawnTargetY;
      isSpawning := false;
    }

    /**
     * `setLifetime` after its first wait: flicker phases of 0.1 s until 3 s
     * have passed, each toggling the opacity between shown and hidden, and
     * then the mushroom counts as collected.
     */
    method RunLifetime()
      requires opacity == 0 || opacity == 1
      modifies this`opacity, this`isCollected
      ensures isCollected && (opacity == 0 || opacity == 1)
    {
      var elapsed := 0.0;
      ghost var phases := 0;
      while elapsed < FlickerDuration
        invariant 0 <= phases <= 30
        invariant elapsed == phases as real * FlickerInterval
        invariant opacity == 0 || opacity == 1
        decreases 30 - phases
      {
        opacity := if opacity == 1 then 0 else 1;
        elapsed := elapsed + FlickerInterval;
        phases := phases + 1;
      }
      isCollected := true;
    }
  }

  // ---- Map (src/services/Map.js) ----

  class Map {
    const width: int
    const height: int
    const tileSize: int
    /** The foreground layer; the other layers are drawn only. */
    const layer: Layer
    var blocks: seq<Block>
    var goombas: seq<Goomba>
    var coins: seq<Coin>
    var mushrooms: seq<Mushroom>

    ghost predicate Valid()
      reads this, layer
    {
      layer.Valid() && layer.width == width && layer.height == height && tileSize > 0
      && Distinct(blocks) && Distinct(goombas) && Distinct(coins) && Distinct(mushrooms)
      && (forall b :: b in blocks ==> b.tileMap == this)
      && (forall g :: g in goombas ==> g.tileMap == this)
      && (forall m :: m in mushrooms ==> m.tileMap == this)
    }

    /**
     * Loads the foreground layer from `width * height` map-file ids and
     * replaces its special tiles by entities.
     */
    constructor (data: seq<int>, width: int, height: int, tileSize: int)
      requires 0 <= width && 0 <= height && |data| == width * height && tileSize > 0
      ensures Valid() && this.width == width && this.height == height && this.tileSize == tileSize
      ensures |layer.tiles| == |data| && forall i :: 0 <= i < |data| ==> layer.tiles[i] == Cleared(TileFor(data[i]))
      ensures mushrooms == []
      ensures Spawned(Decoded(data))
    {
      this.width := width;
      this.height := height;
      this.tileSize := tileSize;
      layer := new Layer(data, width, height);
      blocks := [];
      goombas := [];
      coins := [];
      mushrooms := [];
      new;
      assert layer.tiles == Decoded(data);
      InitializeSpecialTiles();
    }

    /** The entity lists hold one entity per special cell of `tiles`, in scan order and as the scan creates them. */
    ghost predicate Spawned(tiles: seq<Option<Tile>>)
      reads this, blocks, goombas, coins
      requires WellFormed(tiles, width, height)
    {
      var bc := CellsWithId(tiles, width, height, BlockId);
      var gc := CellsWithId(tiles, width, height, GoombaId);
      var cc := CellsWithId(tiles, width, height, CoinId);
      |blocks| == |bc| && |goombas| == |gc| && |coins| == |cc|
      && (forall k :: 0 <= k < |bc| ==> PlacedBlock(blocks[k], bc[k]))
      && (forall k :: 0 <= k < |gc| ==> PlacedGoomba(goombas[k], gc[k]))
      && (forall k :: 0 <= k < |cc| ==> PlacedCoin(coins[k], cc[k]))
    }

    ghost predicate PlacedBlock(b: Block, c: Cell)
      reads b
    {
      b.x == (c.x * tileSize) as real && b.y == (c.y * tileSize) as real
      && b.w == TileSize && b.h == TileSize && !b.isHit && b.frame == 0 && b.tileMap == this
    }

    ghost predicate PlacedGoomba(g: Goomba, c: Cell)
      reads g
    {
      g.x == (c.x * tileSize) as real && g.y == (c.y * tileSize) as real
      && g.w == tileSize && g.h == tileSize && g.direction == 1 && g.verticalSpeed == 0.0 && !g.isDead && g.tileMap == this
    }

    ghost predicate PlacedCoin(c: Coin, cell: Cell)
      reads c
    {
      c.x == (cell.x * tileSize) as real && c.y == (cell.y * tileSize) as real
      && c.w == tileSize && c.h == tileSize && !c.collected && !c.isBlockSpawned
    }

    /** The scan has created one entity per special cell it passed, and cleared exactly the cells it passed. */
    ghost predicate ScannedTo(tiles0: seq<Option<Tile>>, y: int, x: int)
      reads this, layer, blocks, goombas, coins
      requires WellFormed(tiles0, width, height) && ScanPoint(width, height, y, x)
    {
      ClearedTo(tiles0, y, x) && BlocksTo(tiles0, y, x) && GoombasTo(tiles0, y, x) && CoinsTo(tiles0, y, x)
    }

    /** The cells before the scan point are cleared, the rest as loaded. */
    ghost predicate ClearedTo(tiles0: seq<Option<Tile>>, y: int, x: int)
      reads layer
    {
      |layer.tiles| == |tiles0|
      && forall i :: 0 <= i < |tiles0| ==> layer.tiles[i] == if i < x + y * width then Cleared(tiles0[i]) else tiles0[i]
    }

    ghost predicate BlocksTo(tiles0: seq<Option<Tile>>, y: int, x: int)
      reads this, blocks
      requires WellFormed(tiles0, width, height) && ScanPoint(width, height, y, x)
    {
      var bc := CellsBefore(tiles0, width, height, BlockId, y, x);
      |blocks| == |bc| && forall k :: 0 <= k < |bc| ==> PlacedBlock(blocks[k], bc[k])
    }

    ghost predicate GoombasTo(tiles0: seq<Option<Tile>>, y: int, x: int)
      reads this, goombas
      requires WellFormed(tiles0, width, height) && ScanPoint(width, height, y, x)
    {
      var gc := CellsBefore(tiles0, width, height, GoombaId, y, x);
      |goombas| == |gc| && forall k :: 0 <= k < |gc| ==> PlacedGoomba(goombas[k], gc[k])
    }

    ghost predicate CoinsTo(tiles0: seq<Option<Tile>>, y: int, x: int)
      reads this, coins
      requires WellFormed(tiles0, width, height) && ScanPoint(width, height, y, x)
    {
      var cc := CellsBefore(tiles0, width, height, CoinId, y, x);
      |coins| == |cc| && forall k :: 0 <= k < |cc| ==> PlacedCoin(coins[k], cc[k])
    }

    /**
     * `initializeSpecialTiles`, run by the constructor on empty lists: a
     * row-by-row scan that turns each block cell into a block (the cell
     * becomes blank) and each goomba or coin cell into that entity (the cell
     * becomes empty).
     */
    method InitializeSpecialTiles()
      requires Valid() && blocks == [] && goombas == [] && coins == []
      modifies this`blocks, this`goombas, this`coins, layer`tiles
      ensures Valid()
      ensures |layer.tiles| == |old(layer.tiles)|
      ensures forall i :: 0 <= i < |layer.tiles| ==> layer.tiles[i] == Cleared(old(layer.tiles)[i])
      ensures Spawned(old(layer.tiles))
    {
      ghost var tiles0 := layer.tiles;
      var y := 0;
      while y < height
        invariant 0 <= y <= height
        invariant Valid()
        invariant ScannedTo(tiles0, y, 0)
      {
        ScanRow(tiles0, y);
        y := y + 1;
      }
      ScanFinished(tiles0);
    }

    /** One row of the scan, column by column. */
    method ScanRow(ghost tiles0: seq<Option<Tile>>, y: int)
      requires Valid() && WellFormed(tiles0, width, height) && 0 <= y < height
      requires ScannedTo(tiles0, y, 0)
      modifies this`blocks, this`goombas, this`coins, layer`tiles
      ensures Valid() && ScannedTo(tiles0, y + 1, 0)
    {
      var x := 0;
      while x < width
        invariant 0 <= x <= width
        invariant Valid()
        invariant ScannedTo(tiles0, y, x)
      {
        ScanStep(tiles0, y, x);
        x := x + 1;
      }
      RowScanned(tiles0, y);
    }

    /** The end of a row is the start of the next. */
    lemma RowScanned(tiles0: seq<Option<Tile>>, y: int)
      requires WellFormed(tiles0, width, height) && 0 <= y < height
      requires ScannedTo(tiles0, y, width)
      ensures ScannedTo(tiles0, y + 1, 0)
    {
      assert (y + 1) * width == width + y * width;
      assert ClearedTo(tiles0, y + 1, 0);
      assert BlocksTo(tiles0, y + 1, 0);
      assert GoombasTo(tiles0, y + 1, 0);
      assert CoinsTo(tiles0, y + 1, 0);
    }

    /** Past the last row every cell is cleared and every special cell has its entity. */
    lemma ScanFinished(tiles0: seq<Option<Tile>>)
      requires WellFormed(tiles0, width, height)
      requires ScannedTo(tiles0, height, 0)
      ensures |layer.tiles| == |tiles0|
      ensures forall i :: 0 <= i < |tiles0| ==> layer.tiles[i] == Cleared(tiles0[i])
      ensures Spawned(tiles0)
    {
      assert BlocksTo(tiles0, height, 0) && GoombasTo(tiles0, height, 0) && CoinsTo(tiles0, height, 0);
    }

    /** One cell of the scan: a special tile becomes its entity, any other tile is left alone. */
    method ScanStep(ghost tiles0: seq<Option<Tile>>, y: int, x: int)
      requires Valid() && WellFormed(tiles0, width, height) && 0 <= y < height && 0 <= x < width
      requires ScannedTo(tiles0, y, x)
      modifies this`blocks, this`goombas, this`coins, layer`tiles
      ensures Valid() && ScannedTo(tiles0, y, x + 1)
    {
      IndexInRange(width, height, x, y);
      ghost var i := x + y * width;
      assert layer.GetTile(x, y) == tiles0[i];
      var tile := layer.GetTile(x, y);
      assert CellAt(tiles0, width, height, x, y) == tile;
      if tile.Some? && tile.value.id == BlockId {
        var block := new Block((x * tileSize) as real, (y * tileSize) as real, this);
        PlaceBlock(tiles0, y, x, block);
      } else if tile.Some? && tile.value.id == GoombaId {
        var goomba := new Goomba((x * tileSize) as real, (y * tileSize) as real, tileSize, tileSize, this);
        PlaceGoomba(tiles0, y, x, goomba);
      } else if tile.Some? && tile.value.id == CoinId {
        var coin := new Coin((x * tileSize) as real, (y * tileSize) as real, tileSize, tileSize, false);
        PlaceCoin(tiles0, y, x, coin);
      } else {
        assert layer.tiles[i] == Cleared(tiles0[i]);
        assert ClearedTo(tiles0, y, x + 1);
        assert BlocksTo(tiles0, y, x + 1) && GoombasTo(tiles0, y, x + 1) && CoinsTo(tiles0, y, x + 1);
      }
    }

    /** A block cell: the new block joins the list and the cell turns blank. */
    method PlaceBlock(ghost tiles0: seq<Option<Tile>>, y: int, x: int, block: Block)
      requires Valid() && WellFormed(tiles0, width, height) && 0 <= y < height && 0 <= x < width
      requires ScannedTo(tiles0, y, x) && HasId(CellAt(tiles0, width, height, x, y), BlockId)
      requires PlacedBlock(block, Cell(x, y)) && block !in blocks
      modifies this`blocks, layer`tiles
      ensures Valid() && ScannedTo(tiles0, y, x + 1) && blocks == old(blocks) + [block]
    {
      IndexInRange(width, height, x, y);
      ghost var i := x + y * width;
      blocks := blocks + [block];
      layer.SetTileId(x, y, BlankId);
      assert layer.tiles[i] == Cleared(tiles0[i]);
      assert ClearedTo(tiles0, y, x + 1);
      assert BlocksTo(tiles0, y, x + 1);
      assert GoombasTo(tiles0, y, x + 1) && CoinsTo(tiles0, y, x + 1);
    }

    /** A goomba cell: the new goomba joins the list and the cell empties. */
    method PlaceGoomba(ghost tiles0: seq<Option<Tile>>, y: int, x: int, goomba: Goomba)
      requires Valid() && WellFormed(tiles0, width, height) && 0 <= y < height && 0 <= x < width
      requires ScannedTo(tiles0, y, x) && HasId(CellAt(tiles0, width, height, x, y), GoombaId)
      requires PlacedGoomba(goomba, Cell(x, y)) && goomba !in goombas
      modifies this`goombas, layer`tiles
      ensures Valid() && ScannedTo(tiles0, y, x + 1) && goombas == old(goombas) + [goomba]
    {
      IndexInRange(width, height, x, y);
      ghost var i := x + y * width;
      goombas := goombas + [goomba];
      layer.SetTile(x, y, None);
      assert layer.tiles[i] == Cleared(tiles0[i]);
      assert ClearedTo(tiles0, y, x + 1);
      assert GoombasTo(tiles0, y, x + 1);
      assert BlocksTo(tiles0, y, x + 1) && CoinsTo(tiles0, y, x + 1);
    }

    /** A coin cell: the new coin joins the list and the cell empties. */
    method PlaceCoin(ghost tiles0: seq<Option<Tile>>, y: int, x: int, coin: Coin)
      requires Valid() && WellFormed(tiles0, width, height) && 0 <= y < height && 0 <= x < width
      requires ScannedTo(tiles0, y, x) && HasId(CellAt(tiles0, width, height, x, y), CoinId)
      requires PlacedCoin(coin, Cell(x, y)) && coin !in coins
      modifies this`coins, layer`tiles
      ensures Valid() && ScannedTo(tiles0, y, x + 1) && coins == old(coins) + [coin]
    {
      IndexInRange(width, height, x, y);
      ghost var i := x + y * width;
      coins := coins + [coin];
      layer.SetTile(x, y, None);
      assert layer.tiles[i] == Cleared(tiles0[i]);
      assert ClearedTo(tiles0, y, x + 1);
      assert CoinsTo(tiles0, y, x + 1);
      assert BlocksTo(tiles0, y, x + 1) && GoombasTo(tiles0, y, x + 1);
    }

    /** `coins.splice(i, 1)`. */
    method RemoveCoinAt(i: nat)
      requires Valid() && i < |coins|
      modifies this`coins
      ensures Valid() && coins == old(coins[..i] + coins[i + 1..])
    {
      RemoveAtDistinct(coins, i);
      coins := coins[..i] + coins[i + 1..];
    }

    /** The live foreground layer as a value. */
    function Snapshot(): (g: Grid)
      reads layer
      requires layer.Valid()
      ensures GridOk(g) && g.width == layer.width && g.height == layer.height
    {
      Grid(layer.tiles, layer.width, layer.height)
    }

    /** `isSolidTileAt` on the live layer. */
    function IsSolidTileAt(col: int, row: int): (r: bool)
      reads layer
      requires layer.Valid()
      ensures r == SolidAt(Snapshot(), col, row)
    {
      var tile := layer.GetTile(col, row);
      tile.Some? && tile.value.id != -1 && tile.value.id != PlatformLeftId && tile.value.id != PlatformRightId
    }

    /** `isPlatformTileAt` on the live layer. */
    function IsPlatformTileAt(col: int, row: int): (r: bool)
      reads layer
      requires layer.Valid()
      ensures r == PlatformAt(Snapshot(), col, row)
    {
      var tile := layer.GetTile(col, row);
      tile.Some? && (tile.value.id == PlatformLeftId || tile.value.id == PlatformRightId)
    }

    /** `getBlockAt`: the first block, in list order, whose box holds the point. */
    function GetBlockAt(px: real, py: real): (r: Option<Block>)
      reads this, blocks
      ensures var i := FirstBlockAt(ViewsOf(blocks), px, py);
        (r.None? <==> i.None?) && (i.Some? ==> r == Some(blocks[i.value]))
    {
      FindBlockFrom(px, py, 0)
    }

    function FindBlockFrom(px: real, py: real, i: nat): (r: Option<Block>)
      reads this, blocks
      requires i <= |blocks|
      ensures var j := FirstBlockFrom(ViewsOf(blocks), px, py, i);
        (r.None? <==> j.None?) && (j.Some? ==> r == Some(blocks[j.value]))
      decreases |blocks| - i
    {
      if i == |blocks| then None
      else
        var b := blocks[i];
        if px >= b.x && px < b.x + b.w as real && py >= b.y && py < b.y + b.h as real then Some(b)
        else FindBlockFrom(px, py, i + 1)
    }

    /**
     * `update`: every goomba moves and the dead ones leave the list, then
     * every mushroom moves and the collected ones leave the list. Blocks
     * and coins only animate, so their lists and states stay as they are.
     */
    method Update(dt: real)
      requires Valid()
      modifies this`goombas, (set g | g in goombas)`x, (set g | g in goombas)`y,
        (set g | g in goombas)`verticalSpeed, (set g | g in goombas)`direction
      modifies this`mushrooms, (set m | m in mushrooms)`x, (set m | m in mushrooms)`y,
        (set m | m in mushrooms)`verticalSpeed, (set m | m in mushrooms)`direction
      ensures Valid()
      ensures goombas == Keep(old(goombas), old(DeadFlags(goombas)))
      ensures mushrooms == Keep(old(mushrooms), old(CollectedFlags(mushrooms)))
      ensures forall j :: 0 <= j < |old(goombas)| ==>
        GoombaStepped(Snapshot(), old(goombas[j].Motion()), old(goombas)[j], dt)
      ensures forall j :: 0 <= j < |old(mushrooms)| ==>
        MushroomStepped(Snapshot(), tileSize, old(mushrooms[j].Motion()), old(mushrooms[j].isCollected),
                        old(mushrooms[j].isSpawning), old(mushrooms)[j], dt)
    {
      UpdateGoombas(dt);
      UpdateMushrooms(dt);
    }

    /** The goomba half of `update`: each goomba moves, then the dead ones are dropped. */
    method UpdateGoombas(dt: real)
      requires Valid()
      modifies this`goombas, (set g | g in goombas)`x, (set g | g in goombas)`y,
        (set g | g in goombas)`verticalSpeed, (set g | g in goombas)`direction
      ensures Valid()
      ensures goombas == Keep(old(goombas), old(DeadFlags(goombas)))
      ensures forall j :: 0 <= j < |old(goombas)| ==>
        GoombaStepped(Snapshot(), old(goombas[j].Motion()), old(goombas)[j], dt)
    {
      var i := 0;
      while i < |goombas|
        invariant 0 <= i <= |goombas| && goombas == old(goombas) && Valid()
        invariant forall j :: 0 <= j < i ==> GoombaStepped(Snapshot(), old(goombas[j].Motion()), goombas[j], dt)
        invariant forall j :: i <= j < |goombas| ==> goombas[j].Motion() == old(goombas[j].Motion())
      {
        var g := goombas[i];
        ghost var before := g.Motion();
        label Step:
        g.UpdateMovement(dt);
        assert GoombaStepped(Snapshot(), before, g, dt);
        forall j | 0 <= j < |goombas| && j != i
          ensures goombas[j].Motion() == old@Step(goombas[j].Motion())
        {
          assert goombas[j] != g;
        }
        i := i + 1;
      }
      var dead := DeadFlags(goombas);
      assert dead == old(DeadFlags(goombas));
      KeepDistinct(goombas, dead);
      forall g | g in Keep(goombas, dead)
        ensures g.tileMap == this
      {
        KeepMembers(goombas, dead, g);
      }
      goombas := Keep(goombas, dead);
    }

    /** The mushroom half of `update`: each mushroom moves, then the collected ones are dropped. */
    method UpdateMushrooms(dt: real)
      requires Valid()
      modifies this`mushrooms, (set m | m in mushrooms)`x, (set m | m in mushrooms)`y,
        (set m | m in mushrooms)`verticalSpeed, (set m | m in mushrooms)`direction
      ensures Valid()
      ensures mushrooms == Keep(old(mushrooms), old(CollectedFlags(mushrooms)))
      ensures forall j :: 0 <= j < |old(mushrooms)| ==>
        MushroomStepped(Snapshot(), tileSize, old(mushrooms[j].Motion()), old(mushrooms[j].isCollected),
                        old(mushrooms[j].isSpawning), old(mushrooms)[j], dt)
    {
      ghost var ms, grid, ts := mushrooms, Snapshot(), tileSize;
      ghost var targets := seq(|ms|, j requires 0 <= j < |ms| reads ms =>
        if ms[j].isCollected then ms[j].Motion() else MushroomMove(grid, ts, ms[j].Motion(), ms[j].isSpawning, dt));
      var i := 0;
      while i < |mushrooms|
        invariant 0 <= i <= |mushrooms| && mushrooms == old(mushrooms) && Valid()
        invariant forall j :: 0 <= j < i ==> mushrooms[j].Motion() == targets[j]
        invariant forall j :: i <= j < |mushrooms| ==> mushrooms[j].Motion() == old(mushrooms[j].Motion())
      {
        var m := mushrooms[i];
        label Step:
        m.Update(dt);
        assert m.Motion() == targets[i];
        forall j | 0 <= j < |mushrooms| && j != i
          ensures mushrooms[j].Motion() == old@Step(mushrooms[j].Motion())
        {
          assert mushrooms[j] != m;
        }
        i := i + 1;
      }
      var collected := CollectedFlags(mushrooms);
      assert collected == old(CollectedFlags(mushrooms));
      KeepDistinct(mushrooms, collected);
      forall m | m in Keep(mushrooms, collected)
        ensures m.tileMap == this
      {
        KeepMembers(mushrooms, collected, m);
      }
      mushrooms := Keep(mushrooms, collected);
    }
  }

  /** The blocks as values, in list order. */
  function ViewsOf(bs: seq<Block>): (r: seq<BlockView>)
    reads bs
    ensures |r| == |bs| && forall i :: 0 <= i < |bs| ==> r[i] == bs[i].View()
  {
    seq(|bs|, i reads bs requires 0 <= i < |bs| => bs[i].View())
  }

  function GoombaBoxes(gs: seq<Goomba>): (r: seq<Box>)
    reads gs
    ensures |r| == |gs| && forall i :: 0 <= i < |gs| ==> r[i] == gs[i].BoxOf()
  {
    seq(|gs|, i reads gs requires 0 <= i < |gs| => gs[i].BoxOf())
  }

  function DeadFlags(gs: seq<Goomba>): (r: seq<bool>)
    reads gs
    ensures |r| == |gs| && forall i :: 0 <= i < |gs| ==> r[i] == gs[i].isDead
  {
    seq(|gs|, i reads gs requires 0 <= i < |gs| => gs[i].isDead)
  }

  function MushroomBoxes(ms: seq<Mushroom>): (r: seq<Box>)
    reads ms
    ensures |r| == |ms| && forall i :: 0 <= i < |ms| ==> r[i] == ms[i].BoxOf()
  {
    seq(|ms|, i reads ms requires 0 <= i < |ms| => ms[i].BoxOf())
  }

  function CollectedFlags(ms: seq<Mushroom>): (r: seq<bool>)
    reads ms
    ensures |r| == |ms| && forall i :: 0 <= i < |ms| ==> r[i] == ms[i].isCollected
  {
    seq(|ms|, i reads ms requires 0 <= i < |ms| => ms[i].isCollected)
  }

  function CoinBoxes(cs: seq<Coin>): (r: seq<Box>)
    reads cs
    ensures |r| == |cs| && forall i :: 0 <= i < |cs| ==> r[i] == cs[i].BoxOf()
  {
    seq(|cs|, i reads cs requires 0 <= i < |cs| => cs[i].BoxOf())
  }

  function CoinFlags(cs: seq<Coin>): (r: seq<bool>)
    reads cs
    ensures |r| == |cs| && forall i :: 0 <= i < |cs| ==> r[i] == cs[i].collected
  {
    seq(|cs|, i reads cs requires 0 <= i < |cs| => cs[i].collected)
  }

  /** A goomba after one frame of `Map.update`, given its motion before: it has moved by `GoombaMove`. */
  predicate GoombaStepped(grid: Grid, before: Critter, g: Goomba, dt: real)
    reads g
    requires GridOk(grid)
  {
    g.Motion() == GoombaMove(grid, before, dt)
  }

  /** A mushroom after one frame: a collected one has stayed put, any other has moved by `MushroomMove`. */
  predicate MushroomStepped(grid: Grid, ts: int, before: Critter, collected: bool, spawning: bool, m: Mushroom, dt: real)
    reads m
    requires GridOk(grid) && ts > 0
  {
    m.Motion() == if collected then before else MushroomMove(grid, ts, before, spawning, dt)
  }

  // ---- CollisionDetector (src/services/CollisionDetector.js) ----

  class CollisionDetector {
    const tileMap: Map

    constructor (tileMap: Map)
      ensures this.tileMap == tileMap
    {
      this.tileMap := tileMap;
    }

    /** `isSolidTileInColumn`: scans the column top to bottom and stops at the first solid cell. */
    method IsSolidTileInColumn(x: int, yStart: int, yEnd: int) returns (r: bool)
      requires tileMap.Valid()
      ensures r == SolidInColumn(tileMap.Snapshot(), x, yStart, yEnd)
    {
      var y := yStart;
      while y <= yEnd
        invariant forall row :: yStart <= row < y ==> !SolidAt(tileMap.Snapshot(), x, row)
        decreases yEnd - y
      {
        if tileMap.IsSolidTileAt(x, y) {
          return true;
        }
        y := y + 1;
      }
      return false;
    }

    /** `isSolidTileInRow`. */
    method IsSolidTileInRow(y: int, xStart: int, xEnd: int) returns (r: bool)
      requires tileMap.Valid()
      ensures r == SolidInRow(tileMap.Snapshot(), y, xStart, xEnd)
    {
      var x := xStart;
      while x <= xEnd
        invariant forall col :: xStart <= col < x ==> !SolidAt(tileMap.Snapshot(), col, y)
        decreases xEnd - x
      {
        if tileMap.IsSolidTileAt(x, y) {
          return true;
        }
        x := x + 1;
      }
      return false;
    }

    /** `isPlatformTileInRow`: platform cells count only for an entity that is not rising. */
    method IsPlatformTileInRow(y: int, xStart: int, xEnd: int, entity: Player) returns (r: bool)
      requires tileMap.Valid()
      ensures r == PlatformInRow(tileMap.Snapshot(), y, xStart, xEnd, entity.vy)
    {
      var x := xStart;
      while x <= xEnd
        invariant forall col :: xStart <= col < x ==> !(PlatformAt(tileMap.Snapshot(), col, y) && entity.vy >= 0.0)
        decreases xEnd - x
      {
        if tileMap.IsPlatformTileAt(x, y) && entity.vy >= 0.0 {
          return true;
        }
        x := x + 1;
      }
      return false;
    }

    /**
     * `checkBlockCollisionFromBelow`: the first unhit block along the row
     * whose bottom is within 5 px of the entity's top is hit, and the scan
     * stops there.
     */
    method CheckBlockCollisionFromBelow(entity: Player, tileY: int, xStart: int, xEnd: int) returns (r: bool)
      requires tileMap.Valid()
      modifies (set b | b in tileMap.blocks)`isHit
      ensures var hit := BlockFromBelow(old(ViewsOf(tileMap.blocks)), tileMap.tileSize, entity.y, tileY, xStart, xEnd);
        r == hit.Some? && ViewsOf(tileMap.blocks) == MarkHit(old(ViewsOf(tileMap.blocks)), hit)
    {
      ghost var views0 := ViewsOf(tileMap.blocks);
      ghost var top := entity.y;
      ghost var ts := tileMap.tileSize;
      var x := xStart;
      while x <= xEnd
        invariant ViewsOf(tileMap.blocks) == views0 && entity.y == top && xStart <= x
        invariant forall c :: xStart <= c < x ==> !Hittable(views0, ts, top, tileY, c)
        decreases xEnd - x
      {
        var block := tileMap.GetBlockAt((x * tileMap.tileSize) as real, (tileY * tileMap.tileSize) as real);
        ghost var found := BlockAtCell(views0, ts, x, tileY);
        assert block.None? <==> found.None?;
        assert found.Some? ==> block.value == tileMap.blocks[found.value] && views0[found.value].isHit == block.value.isHit;
        if block.Some? && !block.value.isHit {
          var entityTop := entity.y;
          var blockBottom := (tileY + 1) * tileMap.tileSize;
          if Abs(entityTop - blockBottom as real) < 5.0 {
            ghost var k := BlockAtCell(views0, ts, x, tileY).value;
            assert tileMap.blocks[k] == block.value;
            assert Hittable(views0, ts, top, tileY, x);
            BlockFromBelowSkips(views0, ts, top, tileY, xStart, x, xEnd);
            assert BlockFromBelow(views0, ts, top, tileY, x, xEnd) == Some(k);
            var _ := block.value.Hit();
            ghost var views1 := ViewsOf(tileMap.blocks);
            forall j | 0 <= j < |views0|
              ensures views1[j] == MarkHit(views0, Some(k))[j]
            {
              if j < k {
                assert tileMap.blocks[j] != tileMap.blocks[k];
              } else if j > k {
                assert tileMap.blocks[k] != tileMap.blocks[j];
              }
            }
            assert views1 == MarkHit(views0, Some(k));
            return true;
          }
        }
        assert !Hittable(views0, ts, top, tileY, x);
        x := x + 1;
      }
      BlockFromBelowSkips(views0, ts, top, tileY, xStart, x, xEnd);
      return false;
    }

    /** `checkHorizontalCollisions`. */
    method CheckHorizontalCollisions(entity: Player)
      requires tileMap.Valid()
      modifies entity`x, entity`vx
      ensures entity.BodyOf() == ResolveHorizontal(tileMap.Snapshot(), tileMap.tileSize, old(entity.BodyOf()))
    {
      var tileSize := tileMap.tileSize;
      var tileLeft := FloorDiv(entity.x, tileSize);
      var tileRight := FloorDiv(entity.x + entity.w as real, tileSize);
      var tileTop := FloorDiv(entity.y, tileSize);
      var tileBottom := FloorDiv(entity.y + entity.h as real - 1.0, tileSize);
      if entity.vx > 0.0 {
        var solid := IsSolidTileInColumn(tileRight, tileTop, tileBottom);
        if solid {
          entity.x := (tileRight * tileSize - entity.w) as real;
          entity.vx := 0.0;
        }
      } else if entity.vx < 0.0 {
        var solid := IsSolidTileInColumn(tileLeft, tileTop, tileBottom);
        if solid {
          entity.x := ((tileLeft + 1) * tileSize) as real;
          entity.vx := 0.0;
        }
      }
    }

    /** `checkVerticalCollisions`; the conditions short-circuit as in the source. */
    method CheckVerticalCollisions(entity: Player)
      requires tileMap.Valid()
      modifies entity`y, entity`vy, entity`isOnGround, (set b | b in tileMap.blocks)`isHit
      ensures var v := ResolveVertical(tileMap.Snapshot(), tileMap.tileSize, old(ViewsOf(tileMap.blocks)), old(entity.BodyOf()));
        entity.BodyOf() == v.body && ViewsOf(tileMap.blocks) == MarkHit(old(ViewsOf(tileMap.blocks)), v.hit)
    {
      ghost var b0 := entity.BodyOf();
      var tileSize := tileMap.tileSize;
      var tileLeft := FloorDiv(entity.x, tileSize);
      var tileRight := FloorDiv(entity.x + entity.w as real - 1.0, tileSize);
      var tileTop := FloorDiv(entity.y, tileSize);
      var tileBottom := FloorDiv(entity.y + entity.h as real, tileSize);
      entity.isOnGround := false;
      VerticalIgnoresGrounded(tileMap.Snapshot(), tileSize, ViewsOf(tileMap.blocks), b0);
      if entity.vy >= 0.0 {
        LandIfSupported(entity, tileLeft, tileRight, tileBottom);
      } else if entity.vy < 0.0 {
        StopIfBlocked(entity, tileLeft, tileRight, tileTop);
      }
    }

    /** The falling half of `checkVerticalCollisions`: solid or platform cells in the row below catch the entity. */
    method LandIfSupported(entity: Player, tileLeft: int, tileRight: int, tileBottom: int)
      requires tileMap.Valid() && entity.vy >= 0.0 && !entity.isOnGround
      requires tileLeft == LeftCol(entity.BodyOf(), tileMap.tileSize) && tileRight == RightCol(entity.BodyOf(), tileMap.tileSize)
      requires tileBottom == BottomRow(entity.BodyOf(), tileMap.tileSize)
      modifies entity`y, entity`vy, entity`isOnGround
      ensures var v := ResolveVertical(tileMap.Snapshot(), tileMap.tileSize, ViewsOf(tileMap.blocks), old(entity.BodyOf()));
        entity.BodyOf() == v.body && v.hit.None?
    {
      ghost var b0 := entity.BodyOf();
      VerticalLanding(tileMap.Snapshot(), tileMap.tileSize, ViewsOf(tileMap.blocks), b0);
      var grounded := IsSolidTileInRow(tileBottom, tileLeft, tileRight);
      if !grounded {
        grounded := IsPlatformTileInRow(tileBottom, tileLeft, tileRight, entity);
      }
      if grounded {
        entity.y := (tileBottom * tileMap.tileSize - entity.h) as real;
        entity.vy := 0.0;
        entity.isOnGround := true;
      }
    }

    /** The rising half: a block hit from below, or else a solid cell in the row above, stops the entity. */
    method StopIfBlocked(entity: Player, tileLeft: int, tileRight: int, tileTop: int)
      requires tileMap.Valid() && entity.vy < 0.0 && !entity.isOnGround
      requires tileLeft == LeftCol(entity.BodyOf(), tileMap.tileSize) && tileRight == RightCol(entity.BodyOf(), tileMap.tileSize)
      requires tileTop == TopRow(entity.BodyOf(), tileMap.tileSize)
      modifies entity`y, entity`vy, (set b | b in tileMap.blocks)`isHit
      ensures var v := ResolveVertical(tileMap.Snapshot(), tileMap.tileSize, old(ViewsOf(tileMap.blocks)), old(entity.BodyOf()));
        entity.BodyOf() == v.body && ViewsOf(tileMap.blocks) == MarkHit(old(ViewsOf(tileMap.blocks)), v.hit)
    {
      ghost var b0 := entity.BodyOf();
      ghost var grid := tileMap.Snapshot();
      ghost var views0 := ViewsOf(tileMap.blocks);
      VerticalRising(grid, tileMap.tileSize, views0, b0);
      ghost var v := ResolveVertical(grid, tileMap.tileSize, views0, b0);
      var stopped := CheckBlockCollisionFromBelow(entity, tileTop, tileLeft, tileRight);
      ghost var views1 := ViewsOf(tileMap.blocks);
      assert stopped == v.hit.Some? && views1 == MarkHit(views0, v.hit);
      assert entity.BodyOf() == b0;
      assert tileMap.Valid() && tileMap.Snapshot() == grid;
      if !stopped {
        stopped := IsSolidTileInRow(tileTop, tileLeft, tileRight);
      }
      assert stopped == (v.hit.Some? || SolidInRow(grid, tileTop, tileLeft, tileRight));
      StopBelowRow(entity, tileTop, stopped);
      assert ViewsOf(tileMap.blocks) == views1;
    }

    /** A stopped entity is put just below the row above it and loses its upward speed. */
    method StopBelowRow(entity: Player, tileTop: int, stopped: bool)
      modifies entity`y, entity`vy
      ensures entity.BodyOf() == if stopped then old(entity.BodyOf()).(y := ((tileTop + 1) * tileMap.tileSize) as real, vy := 0.0)
                                 else old(entity.BodyOf())
    {
      if stopped {
        entity.y := ((tileTop + 1) * tileMap.tileSize) as real;
        entity.vy := 0.0;
      }
    }
  }

  // ---- Player (src/entities/player) ----

  class Player {
    const tileMap: Map
    /** The detector the state objects share (each builds one over the same map). */
    const detector: CollisionDetector
    const cfg: Config
    const initialX: real
    const initialY: real
    const w: int
    var x: real
    var y: real
    var h: int
    var vx: real
    var vy: real
    var isOnGround: bool
    var jumpTime: real
    var facingRight: bool
    var isBig: bool
    var isMovingLeft: bool
    var isMovingRight: bool
    var state: StateName
    var isInvincible: bool
    var invincibilityTimer: real
    var isGrowing: bool

    ghost predicate Valid()
      reads tileMap, tileMap.layer
    {
      tileMap.Valid() && detector.tileMap == tileMap && cfg.maxJumpTime != 0.0
    }

    function BodyOf(): Body
      reads this
    {
      Body(x, y, w, h, vx, vy, isOnGround)
    }

    /** Everything of the player the game logic reads or writes. */
    function AsPose(): Pose
      reads this
    {
      Pose(BodyOf(), jumpTime, facingRight, isBig, isMovingLeft, isMovingRight, state, isInvincible, invincibilityTimer, isGrowing)
    }

    /** The state machine starts in Idling without running its `enter`. */
    constructor (x: real, y: real, width: int, height: int, tileMap: Map, cfg: Config)
      requires tileMap.Valid() && cfg.maxJumpTime != 0.0
      ensures Valid() && this.tileMap == tileMap && this.cfg == cfg && initialX == x && initialY == y
      ensures AsPose() == Pose(Body(x, y, width, height, 0.0, 0.0, false), 0.0, true, false, false, false, Idling, false, 0.0, false)
    {
      this.tileMap := tileMap;
      detector := new CollisionDetector(tileMap);
      this.cfg := cfg;
      initialX := x;
      initialY := y;
      this.x := x;
      this.y := y;
      w := width;
      h := height;
      vx := 0.0;
      vy := 0.0;
      isOnGround := false;
      jumpTime := 0.0;
      facingRight := true;
      isBig := false;
      isMovingLeft := false;
      isMovingRight := false;
      state := Idling;
      isInvincible := false;
      invincibilityTimer := 0.0;
      isGrowing := false;
    }

    /** `stateMachine.change(next)`: the new state's `enter` (every `exit` only swaps animations). */
    method Change(next: StateName)
      modifies this`state, this`vx, this`vy, this`isOnGround, this`jumpTime, this`isBig, this`h, this`y
      ensures AsPose() == PlayerRules.Change(old(AsPose()), next, cfg)
    {
      state := next;
      match next
      case Idling => EnterIdling();
      case Walking => EnterWalking();
      case Jumping => EnterJumping();
      case Growing => EnterGrowing();
      case Shrinking => EnterShrinking();
      case Falling =>
      case Skidding =>
    }

    /** Idling's `enter`: the player stops. */
    method EnterIdling()
      requires state == Idling
      modifies this`vx, this`vy
      ensures AsPose() == PlayerRules.Change(old(AsPose()), Idling, cfg)
    {
      vx := 0.0;
      vy := 0.0;
    }

    /** Walking's `enter`: the player is on the ground. */
    method EnterWalking()
      requires state == Walking
      modifies this`isOnGround
      ensures AsPose() == PlayerRules.Change(old(AsPose()), Walking, cfg)
    {
      isOnGround := true;
    }

    /** Jumping's `enter`: the jump timer restarts and the take-off speed is set. */
    method EnterJumping()
      requires state == Jumping
      modifies this`jumpTime, this`vy
      ensures AsPose() == PlayerRules.Change(old(AsPose()), Jumping, cfg)
    {
      jumpTime := 0.0;
      vy := cfg.jumpPower;
    }

    /** Growing's `enter`: big, taller, and raised so the feet stay put. */
    method EnterGrowing()
      requires state == Growing
      modifies this`isBig, this`h, this`y
      ensures AsPose() == PlayerRules.Change(old(AsPose()), Growing, cfg)
    {
      isBig := true;
      h := BigHeight;
      y := y - SizeShift;
    }

    /** Shrinking's `enter`: small again (the height and position stay as they are). */
    method EnterShrinking()
      requires state == Shrinking
      modifies this`isBig
      ensures AsPose() == PlayerRules.Change(old(AsPose()), Shrinking, cfg)
    {
      isBig := false;
    }

    method Grow()
      modifies this`state, this`vx, this`vy, this`isOnGround, this`jumpTime, this`isBig, this`h, this`y, this`isGrowing
      ensures AsPose() == PlayerRules.Grow(old(AsPose()), cfg)
    {
      isGrowing := true;
      Change(Growing);
    }

    method Shrink()
      modifies this`state, this`vx, this`vy, this`isOnGround, this`jumpTime, this`isBig, this`h, this`y
      modifies this`isInvincible, this`invincibilityTimer
      ensures AsPose() == PlayerRules.Shrink(old(AsPose()), cfg)
    {
      Change(Shrinking);
      isInvincible := true;
      invincibilityTimer := InvincibleFor;
    }

    method Die()
      modifies this`x, this`y, this`isInvincible
      ensures AsPose() == PlayerRules.Die(old(AsPose()), initialX, initialY)
    {
      x := initialX;
      y := initialY;
      isInvincible := false;
    }

    /** What the physics step reads of the map, as values. */
    function Surroundings(): (e: Env)
      reads tileMap, tileMap.layer, tileMap.blocks
      requires tileMap.Valid()
      ensures EnvOk(e) && e.blocks == ViewsOf(tileMap.blocks)
    {
      Env(tileMap.Snapshot(), tileMap.tileSize, ViewsOf(tileMap.blocks), tileMap.width)
    }

    // ---- PlayerState: movement shared by all states ----

    /** `moveRight`. */
    method MoveRight()
      modifies this`vx
      ensures vx == AccelerateRight(old(vx), cfg)
    {
      vx := Min(vx + cfg.acceleration, cfg.maxSpeed);
    }

    /** `moveLeft`. */
    method MoveLeft()
      modifies this`vx
      ensures vx == AccelerateLeft(old(vx), cfg)
    {
      vx := Max(vx - cfg.acceleration, -cfg.maxSpeed);
    }

    /** `slowDown`. */
    method SlowDown()
      modifies this`vx
      ensures vx == Decelerate(old(vx), cfg)
    {
      if vx > 0.0 {
        vx := Max(0.0, vx - cfg.deceleration);
      } else if vx < 0.0 {
        vx := Min(0.0, vx + cfg.deceleration);
      }
    }

    /** `handleHorizontalMovement`: both or neither key brakes, one key accelerates and turns the player. */
    method HandleHorizontalMovement(input: Input)
      modifies this`vx, this`facingRight
      ensures AsPose() == Steer(old(AsPose()), input, cfg)
    {
      if input.aHeld && input.dHeld {
        SlowDown();
      } else if input.aHeld {
        MoveLeft();
        facingRight := false;
      } else if input.dHeld {
        MoveRight();
        facingRight := true;
      } else {
        SlowDown();
      }
      if Abs(vx) < RestSpeed {
        vx := 0.0;
      }
    }

    /** `getCollidingTiles`: the solid cells of the inclusive tile rectangle, row by row. */
    method GetCollidingTiles(left: int, top: int, right: int, bottom: int) returns (cells: seq<Cell>)
      requires Valid()
      ensures cells == SolidCells(tileMap.Snapshot(), left, top, right, bottom)
      ensures forall c :: c in cells <==> left <= c.x <= right && top <= c.y <= bottom && tileMap.IsSolidTileAt(c.x, c.y)
      ensures RowMajor(cells)
    {
      ghost var g := tileMap.Snapshot();
      ghost var all := SolidCells(g, left, top, right, bottom);
      cells := [];
      var y := top;
      while y <= bottom
        invariant cells + SolidCells(g, left, y, right, bottom) == all
        decreases bottom - y
      {
        var row := SolidCellsInRow(y, left, right);
        assert cells + row + SolidCells(g, left, y + 1, right, bottom) == all;
        cells := cells + row;
        y := y + 1;
      }
      forall c {
        SolidCellsMembers(g, left, top, right, bottom, c);
      }
      SolidCellsSorted(g, left, top, right, bottom);
    }

    /** The inner loop of `getCollidingTiles`: the solid cells of one row, left to right. */
    method SolidCellsInRow(y: int, left: int, right: int) returns (row: seq<Cell>)
      requires Valid()
      ensures row == SolidRow(tileMap.Snapshot(), y, left, right)
    {
      ghost var g := tileMap.Snapshot();
      row := [];
      var x := left;
      while x <= right
        invariant row + SolidRow(g, y, x, right) == SolidRow(g, y, left, right)
        decreases right - x
      {
        ghost var before := row;
        var solid := tileMap.IsSolidTileAt(x, y);
        ghost var here := if solid then [Cell(x, y)] else [];
        assert SolidRow(g, y, x, right) == here + SolidRow(g, y, x + 1, right);
        if solid {
          row := row + [Cell(x, y)];
        }
        assert row == before + here;
        assert row + SolidRow(g, y, x + 1, right) == before + (here + SolidRow(g, y, x + 1, right));
        x := x + 1;
      }
    }

    /** `applyGravity`. */
    method ApplyGravity(dt: real)
      modifies this`vy
      ensures AsPose() == Gravity(old(AsPose()), dt, cfg)
    {
      if !isOnGround {
        vy := Min(vy + cfg.gravity * dt, cfg.maxFallSpeed);
      }
    }

    /** `updatePosition`: move and resolve horizontally, then vertically, then clamp x to the map and round. */
    method UpdatePosition(dt: real)
      requires Valid()
      modifies this`x, this`y, this`vx, this`vy, this`isOnGround, (set b | b in tileMap.blocks)`isHit
      ensures var v := Collision.UpdatePosition(tileMap.Snapshot(), tileMap.tileSize, old(ViewsOf(tileMap.blocks)), tileMap.width, old(BodyOf()), dt);
        BodyOf() == v.body && ViewsOf(tileMap.blocks) == MarkHit(old(ViewsOf(tileMap.blocks)), v.hit)
    {
      ghost var b0, grid, views0 := BodyOf(), tileMap.Snapshot(), ViewsOf(tileMap.blocks);
      var dx := Travel(vx, dt);
      var dy := Travel(vy, dt);
      ghost var across := ResolveHorizontal(grid, tileMap.tileSize, b0.(x := b0.x + dx));
      MoveAcross(dx, grid, across);
      ghost var down := ResolveVertical(grid, tileMap.tileSize, views0, across.(y := across.y + dy));
      DropAndSettle(dy, grid, views0, down);
      UpdatePositionSteps(grid, tileMap.tileSize, views0, tileMap.width, b0, dt, across, down, BodyOf());
    }

    /** The rest of `updatePosition` after the horizontal move: the vertical move, then the clamp and rounding. */
    method DropAndSettle(dy: real, ghost grid: Grid, ghost views: seq<BlockView>, ghost down: Vertical)
      requires Valid() && grid == tileMap.Snapshot() && views == ViewsOf(tileMap.blocks)
      requires down == ResolveVertical(grid, tileMap.tileSize, views, BodyOf().(y := y + dy))
      modifies this`x, this`y, this`vy, this`isOnGround, (set b | b in tileMap.blocks)`isHit
      ensures BodyOf() == Settle(down.body, tileMap.width * TileSize - w) && ViewsOf(tileMap.blocks) == MarkHit(views, down.hit)
    {
      MoveDown(dy);
      ghost var views1 := ViewsOf(tileMap.blocks);
      ClampAndRound();
      assert ViewsOf(tileMap.blocks) == views1;
    }

    /** The horizontal half of `updatePosition`. */
    method MoveAcross(dx: real, ghost grid: Grid, ghost across: Body)
      requires Valid() && grid == tileMap.Snapshot()
      requires across == ResolveHorizontal(grid, tileMap.tileSize, BodyOf().(x := x + dx))
      modifies this`x, this`vx
      ensures BodyOf() == across
    {
      x := x + dx;
      detector.CheckHorizontalCollisions(this);
    }

    /** The vertical half of `updatePosition`. */
    method MoveDown(dy: real)
      requires Valid()
      modifies this`y, this`vy, this`isOnGround, (set b | b in tileMap.blocks)`isHit
      ensures var v := ResolveVertical(tileMap.Snapshot(), tileMap.tileSize, old(ViewsOf(tileMap.blocks)), old(BodyOf()).(y := old(y) + dy));
        BodyOf() == v.body && ViewsOf(tileMap.blocks) == MarkHit(old(ViewsOf(tileMap.blocks)), v.hit)
    {
      y := y + dy;
      assert BodyOf() == old(BodyOf()).(y := old(y) + dy);
      assert ViewsOf(tileMap.blocks) == old(ViewsOf(tileMap.blocks));
      detector.CheckVerticalCollisions(this);
    }

    /** The end of `updatePosition`: x kept inside the map, both coordinates rounded. */
    method ClampAndRound()
      modifies this`x, this`y
      ensures BodyOf() == Settle(old(BodyOf()), tileMap.width * TileSize - w)
    {
      var limit := tileMap.width * TileSize - w;
      var rx := Round(x);
      var cx := if rx <= limit then rx else limit;
      x := (if cx >= 0 then cx else 0) as real;
      y := Round(y) as real;
    }

    /** `PlayerState.update`: gravity, then the position update (the animation step is rendering). */
    method BaseUpdate(dt: real)
      requires Valid()
      modifies this`x, this`y, this`vx, this`vy, this`isOnGround, (set b | b in tileMap.blocks)`isHit
      ensures var m := PlayerRules.BaseUpdate(old(AsPose()), dt, old(Surroundings()), cfg);
        AsPose() == m.pose && ViewsOf(tileMap.blocks) == MarkHit(old(ViewsOf(tileMap.blocks)), m.hit)
    {
      ghost var p0, env0 := AsPose(), Surroundings();
      ApplyGravity(dt);
      ghost var q := AsPose();
      assert tileMap.Snapshot() == env0.grid && ViewsOf(tileMap.blocks) == env0.blocks;
      UpdatePosition(dt);
      ghost var v := Collision.UpdatePosition(env0.grid, env0.tileSize, env0.blocks, env0.mapWidth, q.body, dt);
      BaseUpdateSteps(p0, dt, env0, cfg, q, v);
    }

    // ---- PlayerWalkingState ----

    /** Walking `checkTransitions`. */
    method CheckWalkingTransitions(input: Input)
      modifies this`state, this`vx, this`vy, this`isOnGround, this`jumpTime, this`isBig, this`h, this`y, this`facingRight
      ensures AsPose() == WalkingTransitions(old(AsPose()), input, cfg)
    {
      if ShouldIdle(AsPose()) {
        Change(Idling);
      }
      if ShouldSkid(AsPose(), input, cfg) {
        facingRight := !facingRight;
        Change(Skidding);
      }
      if !isOnGround {
        if vy < 0.0 {
          Change(Jumping);
        } else {
          Change(Falling);
        }
      }
    }

    /** Walking `handleInput`: a held key sets its flag unless the other direction is already set; a press jumps. */
    method HandleWalkingInput(input: Input)
      modifies this`isMovingLeft, this`isMovingRight
      modifies this`state, this`vx, this`vy, this`isOnGround, this`jumpTime, this`isBig, this`h, this`y
      ensures AsPose() == WalkingInput(old(AsPose()), input, cfg)
    {
      if input.aHeld && !isMovingRight {
        isMovingLeft := true;
      } else {
        isMovingLeft := false;
      }
      if input.dHeld && !isMovingLeft {
        isMovingRight := true;
      } else {
        isMovingRight := false;
      }
      if input.spacePressed {
        Change(Jumping);
      }
    }

    /** Walking `update`. */
    method UpdateWalking(input: Input, dt: real)
      requires Valid()
      modifies this, (set b | b in tileMap.blocks)`isHit
      ensures var m := WalkingUpdate(old(AsPose()), input, dt, old(Surroundings()), cfg);
        AsPose() == m.pose && ViewsOf(tileMap.blocks) == MarkHit(old(ViewsOf(tileMap.blocks)), m.hit)
    {
      BaseUpdate(dt);
      CheckWalkingTransitions(input);
      HandleWalkingInput(input);
      HandleHorizontalMovement(input);
    }

    // ---- PlayerJumpingState ----

    /** Jumping `handleInput`: letting go of jump while rising halves the upward speed. */
    method HandleJumpingInput(input: Input)
      modifies this`vy
      ensures AsPose() == JumpingInput(old(AsPose()), input)
    {
      if !input.spaceHeld && vy < 0.0 {
        vy := vy * 0.5;
      }
    }

    /** `handleJumping`: a held jump follows the boost curve and advances the jump timer; otherwise the timer resets. */
    method HandleJumping(input: Input, dt: real)
      requires cfg.maxJumpTime != 0.0
      modifies this`vy, this`jumpTime
      ensures AsPose() == PlayerRules.HandleJumping(old(AsPose()), input, dt, cfg)
    {
      if input.spaceHeld && jumpTime <= cfg.maxJumpTime {
        vy := cfg.jumpPower * (1.0 - jumpTime / cfg.maxJumpTime);
        jumpTime := jumpTime + dt;
      } else {
        jumpTime := 0.0;
      }
    }

    /** Jumping `checkTransitions`. */
    method CheckJumpingTransitions()
      modifies this`state, this`vx, this`vy, this`isOnGround, this`jumpTime, this`isBig, this`h, this`y
      ensures AsPose() == JumpingTransitions(old(AsPose()), cfg)
    {
      if vy >= 0.0 {
        Change(Falling);
      }
    }

    /** Jumping `update`. */
    method UpdateJumping(input: Input, dt: real)
      requires Valid()
      modifies this, (set b | b in tileMap.blocks)`isHit
      ensures var m := JumpingUpdate(old(AsPose()), input, dt, old(Surroundings()), cfg);
        AsPose() == m.pose && ViewsOf(tileMap.blocks) == MarkHit(old(ViewsOf(tileMap.blocks)), m.hit)
    {
      BaseUpdate(dt);
      SteerJump(input, dt);
    }

    /** What Jumping `update` does after the base update: release, steering, transitions, then the held jump. */
    method SteerJump(input: Input, dt: real)
      requires cfg.maxJumpTime != 0.0
      modifies this`state, this`vx, this`vy, this`isOnGround, this`jumpTime, this`isBig, this`h, this`y, this`facingRight
      ensures AsPose() == PlayerRules.HandleJumping(JumpingTransitions(Steer(JumpingInput(old(AsPose()), input), input, cfg), cfg), input, dt, cfg)
    {
      HandleJumpingInput(input);
      HandleHorizontalMovement(input);
      CheckJumpingTransitions();
      HandleJumping(input, dt);
    }

    // ---- PlayerSkiddingState ----

    /** Skidding `handleInput`. */
    method HandleSkiddingInput(input: Input)
      modifies this`state, this`vx, this`vy, this`isOnGround, this`jumpTime, this`isBig, this`h, this`y
      ensures AsPose() == SkiddingInput(old(AsPose()), input, cfg)
    {
      if input.spacePressed {
        Change(Jumping);
      }
    }

    /** `handleSkidding`. */
    method HandleSkidding()
      modifies this`vx
      ensures AsPose() == Skid(old(AsPose()), cfg)
    {
      SlowDown();
      if Abs(vx) < RestSpeed {
        vx := 0.0;
      }
    }

    /** Skidding `checkTransitions`. */
    method CheckSkiddingTransitions(input: Input)
      modifies this`state, this`vx, this`vy, this`isOnGround, this`jumpTime, this`isBig, this`h, this`y
      ensures AsPose() == SkiddingTransitions(old(AsPose()), input, cfg)
    {
      if Abs(vx) < RestSpeed {
        if input.aHeld || input.dHeld {
          Change(Walking);
        } else {
          Change(Idling);
        }
      }
    }

    /** Skidding `update`. */
    method UpdateSkidding(input: Input, dt: real)
      requires Valid()
      modifies this, (set b | b in tileMap.blocks)`isHit
      ensures var m := SkiddingUpdate(old(AsPose()), input, dt, old(Surroundings()), cfg);
        AsPose() == m.pose && ViewsOf(tileMap.blocks) == MarkHit(old(ViewsOf(tileMap.blocks)), m.hit)
    {
      BaseUpdate(dt);
      HandleSkiddingInput(input);
      HandleSkidding();
      CheckSkiddingTransitions(input);
    }

    // ---- PlayerIdlingState ----

    /** Idling `handleInput`. */
    method HandleIdlingInput(input: Input)
      modifies this`state, this`vx, this`vy, this`isOnGround, this`jumpTime, this`isBig, this`h, this`y
      ensures AsPose() == IdlingInput(old(AsPose()), input, cfg)
    {
      if input.spacePressed {
        Change(Jumping);
      }
      if input.aHeld != input.dHeld {
        Change(Walking);
      }
    }

    /** Idling `update`. */
    method UpdateIdling(input: Input, dt: real)
      requires Valid()
      modifies this, (set b | b in tileMap.blocks)`isHit
      ensures var m := IdlingUpdate(old(AsPose()), input, dt, old(Surroundings()), cfg);
        AsPose() == m.pose && ViewsOf(tileMap.blocks) == MarkHit(old(ViewsOf(tileMap.blocks)), m.hit)
    {
      BaseUpdate(dt);
      HandleIdlingInput(input);
    }

    // ---- PlayerFallingState ----

    /** Falling `checkTransitions`. */
    method CheckFallingTransitions()
      modifies this`state, this`vx, this`vy, this`isOnGround, this`jumpTime, this`isBig, this`h, this`y
      ensures AsPose() == FallingTransitions(old(AsPose()), cfg)
    {
      if isOnGround {
        if Abs(vx) < RestSpeed {
          Change(Idling);
        } else {
          Change(Walking);
        }
      }
    }

    /** Falling `update`. */
    method UpdateFalling(input: Input, dt: real)
      requires Valid()
      modifies this, (set b | b in tileMap.blocks)`isHit
      ensures var m := FallingUpdate(old(AsPose()), input, dt, old(Surroundings()), cfg);
        AsPose() == m.pose && ViewsOf(tileMap.blocks) == MarkHit(old(ViewsOf(tileMap.blocks)), m.hit)
    {
      BaseUpdate(dt);
      HandleHorizontalMovement(input);
      CheckFallingTransitions();
    }

    // ---- PlayerGrowingState and PlayerShrinkingState ----

    /** Growing `checkTransitions`: `animationDone` is whether the grow animation has played out. */
    method CheckGrowingTransitions(animationDone: bool)
      modifies this`state, this`vx, this`vy, this`isOnGround, this`jumpTime, this`isBig, this`h, this`y
      ensures AsPose() == GrowingTransitions(old(AsPose()), animationDone, cfg)
    {
      if animationDone {
        Change(Idling);
      }
    }

    /** Shrinking `checkTransitions`. */
    method CheckShrinkingTransitions(animationDone: bool)
      modifies this`state, this`vx, this`vy, this`isOnGround, this`jumpTime, this`isBig, this`h, this`y
      ensures AsPose() == ShrinkingTransitions(old(AsPose()), animationDone, cfg)
    {
      if animationDone {
        h := SmallHeight;
        y := y + SizeShift;
        Change(Idling);
      }
    }

    method UpdateGrowing(dt: real, animationDone: bool)
      requires Valid()
      modifies this, (set b | b in tileMap.blocks)`isHit
      ensures var m := GrowingUpdate(old(AsPose()), dt, animationDone, old(Surroundings()), cfg);
        AsPose() == m.pose && ViewsOf(tileMap.blocks) == MarkHit(old(ViewsOf(tileMap.blocks)), m.hit)
    {
      BaseUpdate(dt);
      CheckGrowingTransitions(animationDone);
    }

    method UpdateShrinking(dt: real, animationDone: bool)
      requires Valid()
      modifies this, (set b | b in tileMap.blocks)`isHit
      ensures var m := ShrinkingUpdate(old(AsPose()), dt, animationDone, old(Surroundings()), cfg);
        AsPose() == m.pose && ViewsOf(tileMap.blocks) == MarkHit(old(ViewsOf(tileMap.blocks)), m.hit)
    {
      BaseUpdate(dt);
      CheckShrinkingTransitions(animationDone);
    }

    /** `stateMachine.update(dt)`: the current state's `update`. */
    method StateMachineUpdate(input: Input, dt: real, animationDone: bool)
      requires Valid()
      modifies this, (set b | b in tileMap.blocks)`isHit
      ensures var m := StateUpdate(old(AsPose()), input, dt, animationDone, old(Surroundings()), cfg);
        AsPose() == m.pose && ViewsOf(tileMap.blocks) == MarkHit(old(ViewsOf(tileMap.blocks)), m.hit)
    {
      match state
      case Idling => UpdateIdling(input, dt);
      case Walking => UpdateWalking(input, dt);
      case Jumping => UpdateJumping(input, dt);
      case Falling => UpdateFalling(input, dt);
      case Skidding => UpdateSkidding(input, dt);
      case Growing => UpdateGrowing(dt, animationDone);
      case Shrinking => UpdateShrinking(dt, animationDone);
    }

    /**
     * `update`: the current state's update, then the coin, mushroom,
     * invincibility and goomba steps, in that order, each seeing what the
     * previous one left.
     */
    method Update(input: Input, dt: real, animationDone: bool, overlaps: (Box, Box) -> bool)
      requires Valid()
      modifies this, (set b | b in tileMap.blocks)`isHit, tileMap`coins, (set c | c in tileMap.coins)`collected
      modifies (set m | m in tileMap.mushrooms)`isCollected, (set g | g in tileMap.goombas)`isDead
      ensures Valid()
      ensures var m := StateUpdate(old(AsPose()), input, dt, animationDone, old(Surroundings()), cfg);
        var hits := CoinHits(m.pose.body.BoxOf(), old(CoinBoxes(tileMap.coins)), old(CoinFlags(tileMap.coins)), overlaps);
        var mb, mf := old(MushroomBoxes(tileMap.mushrooms)), old(CollectedFlags(tileMap.mushrooms));
        var p := PlayerRules.Tick(MushroomSweep(m.pose, mb, mf, 0, overlaps, cfg), dt);
        var gb, gd := old(GoombaBoxes(tileMap.goombas)), old(DeadFlags(tileMap.goombas));
        ViewsOf(tileMap.blocks) == MarkHit(old(ViewsOf(tileMap.blocks)), m.hit)
        && tileMap.coins == Keep(old(tileMap.coins), RemovedMask(hits))
        && CollectedFlags(tileMap.mushrooms) == MushroomSweepCollected(m.pose, mb, mf, 0, overlaps, cfg)
        && AsPose() == GoombaCheck(p, gb, gd, overlaps, initialX, initialY, cfg)
        && DeadFlags(tileMap.goombas) == GoombaCheckDead(p, gb, gd, overlaps, initialX, initialY, cfg)
        && forall j :: 0 <= j < |old(tileMap.coins)| ==>
             var c := old(tileMap.coins)[j]; c.collected == (old(c.collected) || (RemovedMask(hits)[j] && !c.isBlockSpawned))
    {
      ghost var cb, cf := CoinBoxes(tileMap.coins), CoinFlags(tileMap.coins);
      ghost var mb, mf := MushroomBoxes(tileMap.mushrooms), CollectedFlags(tileMap.mushrooms);
      ghost var gb, gd := GoombaBoxes(tileMap.goombas), DeadFlags(tileMap.goombas);
      StateMachineUpdate(input, dt, animationDone);
      assert CoinBoxes(tileMap.coins) == cb && CoinFlags(tileMap.coins) == cf;
      assert MushroomBoxes(tileMap.mushrooms) == mb && CollectedFlags(tileMap.mushrooms) == mf;
      assert GoombaBoxes(tileMap.goombas) == gb && DeadFlags(tileMap.goombas) == gd;
      Contacts(dt, overlaps);
    }

    /** The part of `update` after the state machine: coins, then mushrooms, the invincibility countdown and goombas. */
    method Contacts(dt: real, overlaps: (Box, Box) -> bool)
      requires Valid()
      modifies this, tileMap`coins, (set c | c in tileMap.coins)`collected
      modifies (set m | m in tileMap.mushrooms)`isCollected, (set g | g in tileMap.goombas)`isDead
      ensures Valid() && ViewsOf(tileMap.blocks) == old(ViewsOf(tileMap.blocks))
      ensures var hits := CoinHits(old(BodyOf().BoxOf()), old(CoinBoxes(tileMap.coins)), old(CoinFlags(tileMap.coins)), overlaps);
        var mb, mf := old(MushroomBoxes(tileMap.mushrooms)), old(CollectedFlags(tileMap.mushrooms));
        var p := PlayerRules.Tick(MushroomSweep(old(AsPose()), mb, mf, 0, overlaps, cfg), dt);
        var gb, gd := old(GoombaBoxes(tileMap.goombas)), old(DeadFlags(tileMap.goombas));
        tileMap.coins == Keep(old(tileMap.coins), RemovedMask(hits))
        && CollectedFlags(tileMap.mushrooms) == MushroomSweepCollected(old(AsPose()), mb, mf, 0, overlaps, cfg)
        && AsPose() == GoombaCheck(p, gb, gd, overlaps, initialX, initialY, cfg)
        && DeadFlags(tileMap.goombas) == GoombaCheckDead(p, gb, gd, overlaps, initialX, initialY, cfg)
        && forall j :: 0 <= j < |old(tileMap.coins)| ==>
             var c := old(tileMap.coins)[j]; c.collected == (old(c.collected) || (RemovedMask(hits)[j] && !c.isBlockSpawned))
    {
      CheckCoinCollision(overlaps);
      CreatureContacts(dt, overlaps);
    }

    /** Mushrooms, the invincibility countdown, then goombas. */
    method CreatureContacts(dt: real, overlaps: (Box, Box) -> bool)
      requires Valid()
      modifies this, (set m | m in tileMap.mushrooms)`isCollected, (set g | g in tileMap.goombas)`isDead
      ensures ViewsOf(tileMap.blocks) == old(ViewsOf(tileMap.blocks))
      ensures var mb, mf := old(MushroomBoxes(tileMap.mushrooms)), old(CollectedFlags(tileMap.mushrooms));
        var p := PlayerRules.Tick(MushroomSweep(old(AsPose()), mb, mf, 0, overlaps, cfg), dt);
        var gb, gd := old(GoombaBoxes(tileMap.goombas)), old(DeadFlags(tileMap.goombas));
        CollectedFlags(tileMap.mushrooms) == MushroomSweepCollected(old(AsPose()), mb, mf, 0, overlaps, cfg)
        && AsPose() == GoombaCheck(p, gb, gd, overlaps, initialX, initialY, cfg)
        && DeadFlags(tileMap.goombas) == GoombaCheckDead(p, gb, gd, overlaps, initialX, initialY, cfg)
    {
      ghost var gb, gd := GoombaBoxes(tileMap.goombas), DeadFlags(tileMap.goombas);
      CheckMushroomCollision(overlaps);
      ghost var p1, flags1 := AsPose(), CollectedFlags(tileMap.mushrooms);
      CountDownInvincibility(dt);
      assert AsPose() == PlayerRules.Tick(p1, dt);
      assert GoombaBoxes(tileMap.goombas) == gb && DeadFlags(tileMap.goombas) == gd;
      assert CollectedFlags(tileMap.mushrooms) == flags1;
      CheckGoombaCollision(overlaps);
    }

    // ---- Player: contacts with the map's entities ----

    /** `checkMushroomCollision`: each uncollected mushroom the player overlaps, in list order, reacts to the player. */
    method CheckMushroomCollision(overlaps: (Box, Box) -> bool)
      requires Valid()
      modifies this, (set m | m in tileMap.mushrooms)`isCollected
      ensures var boxes, flags := old(MushroomBoxes(tileMap.mushrooms)), old(CollectedFlags(tileMap.mushrooms));
        AsPose() == MushroomSweep(old(AsPose()), boxes, flags, 0, overlaps, cfg)
        && CollectedFlags(tileMap.mushrooms) == MushroomSweepCollected(old(AsPose()), boxes, flags, 0, overlaps, cfg)
      ensures ViewsOf(tileMap.blocks) == old(ViewsOf(tileMap.blocks))
      ensures GoombaBoxes(tileMap.goombas) == old(GoombaBoxes(tileMap.goombas))
      ensures DeadFlags(tileMap.goombas) == old(DeadFlags(tileMap.goombas))
    {
      ghost var p0, boxes, flags0 := AsPose(), MushroomBoxes(tileMap.mushrooms), CollectedFlags(tileMap.mushrooms);
      var ms := tileMap.mushrooms;
      var i := 0;
      while i < |ms|
        invariant 0 <= i <= |ms| && ms == tileMap.mushrooms && MushroomBoxes(ms) == boxes
        invariant MushroomSweep(AsPose(), boxes, CollectedFlags(ms), i, overlaps, cfg) == MushroomSweep(p0, boxes, flags0, 0, overlaps, cfg)
        invariant MushroomSweepCollected(AsPose(), boxes, CollectedFlags(ms), i, overlaps, cfg)
               == MushroomSweepCollected(p0, boxes, flags0, 0, overlaps, cfg)
      {
        ghost var p, flags := AsPose(), CollectedFlags(ms);
        VisitMushroom(ms, i, overlaps);
        MushroomSweepStep(p, boxes, flags, i, overlaps, cfg);
        i := i + 1;
      }
    }

    /** The `forEach` callback of `checkMushroomCollision` on mushroom `i`: one step of `MushroomSweep`. */
    method VisitMushroom(ms: seq<Mushroom>, i: nat, overlaps: (Box, Box) -> bool)
      requires Valid() && ms == tileMap.mushrooms && i < |ms|
      modifies this, {ms[i]}`isCollected
      ensures MushroomBoxes(ms) == old(MushroomBoxes(ms))
      ensures var p, boxes, flags := old(AsPose()), old(MushroomBoxes(ms)), old(CollectedFlags(ms));
        var c := if overlaps(p.body.BoxOf(), boxes[i]) && !flags[i] then MushroomContact(p, flags[i], cfg) else Contact(p, flags[i]);
        AsPose() == c.pose && CollectedFlags(ms) == flags[i := c.flag]
    {
      var m := ms[i];
      ghost var flags := CollectedFlags(ms);
      if overlaps(BodyOf().BoxOf(), m.BoxOf()) && !m.isCollected {
        m.OnCollideWithPlayer(this);
        forall j | 0 <= j < |ms| && j != i
          ensures ms[j].isCollected == flags[j]
        {
          assert ms[j] != m;
        }
        assert CollectedFlags(ms) == flags[i := m.isCollected];
      } else {
        assert flags[i := flags[i]] == flags;
      }
    }

    /** The invincibility countdown of `update`. */
    method CountDownInvincibility(dt: real)
      modifies this`isInvincible, this`invincibilityTimer
      ensures AsPose() == PlayerRules.Tick(old(AsPose()), dt)
    {
      if isInvincible {
        invincibilityTimer := invincibilityTimer - dt;
        if invincibilityTimer <= 0.0 {
          isInvincible := false;
        }
      }
    }

    /** `checkGoombaCollision`: nothing while invincible; otherwise each live goomba the player overlaps, in list order, reacts to the player. */
    method CheckGoombaCollision(overlaps: (Box, Box) -> bool)
      requires Valid()
      modifies this, (set g | g in tileMap.goombas)`isDead
      ensures var boxes, dead := old(GoombaBoxes(tileMap.goombas)), old(DeadFlags(tileMap.goombas));
        AsPose() == GoombaCheck(old(AsPose()), boxes, dead, overlaps, initialX, initialY, cfg)
        && DeadFlags(tileMap.goombas) == GoombaCheckDead(old(AsPose()), boxes, dead, overlaps, initialX, initialY, cfg)
      ensures ViewsOf(tileMap.blocks) == old(ViewsOf(tileMap.blocks))
      ensures CollectedFlags(tileMap.mushrooms) == old(CollectedFlags(tileMap.mushrooms))
    {
      if isInvincible {
        return;
      }
      SweepGoombas(overlaps);
    }

    /** The `forEach` loop of `checkGoombaCollision`, for a player that is not invincible. */
    method SweepGoombas(overlaps: (Box, Box) -> bool)
      requires Valid()
      modifies this, (set g | g in tileMap.goombas)`isDead
      ensures var boxes, dead := old(GoombaBoxes(tileMap.goombas)), old(DeadFlags(tileMap.goombas));
        AsPose() == GoombaSweep(old(AsPose()), boxes, dead, 0, overlaps, initialX, initialY, cfg).pose
        && DeadFlags(tileMap.goombas) == GoombaSweepDead(old(AsPose()), boxes, dead, 0, overlaps, initialX, initialY, cfg)
      ensures ViewsOf(tileMap.blocks) == old(ViewsOf(tileMap.blocks))
      ensures CollectedFlags(tileMap.mushrooms) == old(CollectedFlags(tileMap.mushrooms))
    {
      ghost var p0, boxes, dead0 := AsPose(), GoombaBoxes(tileMap.goombas), DeadFlags(tileMap.goombas);
      var gs := tileMap.goombas;
      var i := 0;
      while i < |gs|
        invariant 0 <= i <= |gs| && gs == tileMap.goombas && GoombaBoxes(gs) == boxes
        invariant GoombaSweep(AsPose(), boxes, DeadFlags(gs), i, overlaps, initialX, initialY, cfg)
               == GoombaSweep(p0, boxes, dead0, 0, overlaps, initialX, initialY, cfg)
        invariant GoombaSweepDead(AsPose(), boxes, DeadFlags(gs), i, overlaps, initialX, initialY, cfg)
               == GoombaSweepDead(p0, boxes, dead0, 0, overlaps, initialX, initialY, cfg)
      {
        VisitGoomba(gs, i, overlaps);
        i := i + 1;
      }
    }

    /** The `forEach` callback of `checkGoombaCollision` on goomba `i`: one step of `GoombaSweep`. */
    method VisitGoomba(gs: seq<Goomba>, i: nat, overlaps: (Box, Box) -> bool)
      requires Valid() && gs == tileMap.goombas && i < |gs|
      modifies this, {gs[i]}`isDead
      ensures GoombaBoxes(gs) == old(GoombaBoxes(gs))
      ensures var p, boxes, dead := old(AsPose()), old(GoombaBoxes(gs)), old(DeadFlags(gs));
        var c := if overlaps(p.body.BoxOf(), boxes[i]) && !dead[i] then GoombaContact(p, boxes[i], dead[i], initialX, initialY, cfg) else Contact(p, false);
        AsPose() == c.pose && DeadFlags(gs) == dead[i := dead[i] || c.flag]
    {
      var g := gs[i];
      ghost var dead := DeadFlags(gs);
      if overlaps(BodyOf().BoxOf(), g.BoxOf()) && !g.isDead {
        g.OnCollideWithPlayer(this);
        forall j | 0 <= j < |gs| && j != i
          ensures gs[j].isDead == dead[j]
        {
          assert gs[j] != g;
        }
        assert DeadFlags(gs) == dead[i := g.isDead];
      } else {
        assert dead[i := dead[i] || false] == dead;
      }
    }

    /**
     * `checkCoinCollision`: a `forEach` over the map's coins that collects and
     * splices out each uncollected coin the player overlaps. Splicing shifts
     * the next coin into the visited slot, so it is not looked at in this
     * pass: the coins removed are those `RemovedMask` marks among the hits.
     */
    method CheckCoinCollision(overlaps: (Box, Box) -> bool)
      requires Valid()
      modifies tileMap`coins, (set c | c in tileMap.coins)`collected
      ensures Valid()
      ensures var hits := CoinHits(BodyOf().BoxOf(), old(CoinBoxes(tileMap.coins)), old(CoinFlags(tileMap.coins)), overlaps);
        tileMap.coins == Keep(old(tileMap.coins), RemovedMask(hits))
        && forall j :: 0 <= j < |old(tileMap.coins)| ==>
             var c := old(tileMap.coins)[j]; c.collected == (old(c.collected) || (RemovedMask(hits)[j] && !c.isBlockSpawned))
      ensures ViewsOf(tileMap.blocks) == old(ViewsOf(tileMap.blocks))
      ensures MushroomBoxes(tileMap.mushrooms) == old(MushroomBoxes(tileMap.mushrooms))
      ensures CollectedFlags(tileMap.mushrooms) == old(CollectedFlags(tileMap.mushrooms))
      ensures GoombaBoxes(tileMap.goombas) == old(GoombaBoxes(tileMap.goombas))
      ensures DeadFlags(tileMap.goombas) == old(DeadFlags(tileMap.goombas))
    {
      ghost var c0, flags0 := tileMap.coins, CoinFlags(tileMap.coins);
      assert forall j :: 0 <= j < |c0| ==> flags0[j] == old(c0[j].collected);
      ghost var hits := CoinHits(BodyOf().BoxOf(), CoinBoxes(c0), flags0, overlaps);
      assert HitsFixed(c0, flags0, hits, overlaps) && CollectedSoFar(c0, flags0, hits, 0);
      ScanCoins(c0, flags0, hits, overlaps);
      ScanCollected(c0, flags0, hits);
    }

    /** The `forEach` loop of `checkCoinCollision`, from the first coin to the end of the shrinking list. */
    method ScanCoins(ghost c0: seq<Coin>, ghost flags0: seq<bool>, ghost hits: seq<bool>, overlaps: (Box, Box) -> bool)
      requires Valid() && c0 == tileMap.coins && |hits| == |c0|
      requires HitsFixed(c0, flags0, hits, overlaps) && CollectedSoFar(c0, flags0, hits, 0)
      modifies tileMap`coins, (set c | c in c0)`collected
      ensures Valid() && tileMap.coins == Keep(c0, RemovedMask(hits)) && CollectedSoFar(c0, flags0, hits, |c0|)
    {
      ghost var k := 0;
      ScanStart(c0, hits);
      var i := 0;
      while i < |tileMap.coins|
        invariant Valid() && Distinct(c0) && ScanAt(c0, hits, k, i, tileMap.coins)
        invariant HitsFixed(c0, flags0, hits, overlaps) && CollectedSoFar(c0, flags0, hits, k)
        decreases |c0| - k
      {
        k := VisitCoin(c0, flags0, hits, overlaps, k, i);
        i := i + 1;
      }
      ScanEnd(c0, hits, k, i, tileMap.coins);
    }

    /** The hits, computed from the player's box and the coins' boxes and flags before the scan. */
    ghost predicate HitsFixed(c0: seq<Coin>, flags0: seq<bool>, hits: seq<bool>, overlaps: (Box, Box) -> bool)
      reads this, (set c | c in c0)`x, (set c | c in c0)`y
    {
      |flags0| == |c0| && |hits| == |c0|
      && forall j :: 0 <= j < |c0| ==> hits[j] == (overlaps(BodyOf().BoxOf(), c0[j].BoxOf()) && !flags0[j])
    }

    /** The coins passed so far, and only they, have been collected when the scan removed them. */
    ghost predicate CollectedSoFar(c0: seq<Coin>, flags0: seq<bool>, hits: seq<bool>, k: int)
      reads c0
    {
      |flags0| == |c0| && |hits| == |c0|
      && forall j :: 0 <= j < |c0| ==> c0[j].collected == (flags0[j] || (j < k && RemovedMask(hits)[j] && !c0[j].isBlockSpawned))
    }

    /** The `forEach` callback of `checkCoinCollision` at index `i`. */
    method VisitCoin(ghost c0: seq<Coin>, ghost flags0: seq<bool>, ghost hits: seq<bool>, overlaps: (Box, Box) -> bool,
                     ghost k: nat, i: nat) returns (ghost k': nat)
      requires Valid() && Distinct(c0) && ScanAt(c0, hits, k, i, tileMap.coins) && i < |tileMap.coins|
      requires HitsFixed(c0, flags0, hits, overlaps) && CollectedSoFar(c0, flags0, hits, k)
      modifies tileMap`coins, (set c | c in c0)`collected
      ensures Valid() && ScanAt(c0, hits, k', i + 1, tileMap.coins)
      ensures HitsFixed(c0, flags0, hits, overlaps) && CollectedSoFar(c0, flags0, hits, k')
      ensures k < k'
    {
      ScanHere(c0, hits, k, i, tileMap.coins);
      var coin := tileMap.coins[i];
      if overlaps(BodyOf().BoxOf(), coin.BoxOf()) && !coin.collected {
        k' := TakeCoin(c0, flags0, hits, k, i);
      } else {
        ScanPass(c0, hits, k, i, tileMap.coins);
        PassCollected(c0, flags0, hits, k);
        k' := k + 1;
      }
    }

    /** The hit branch of the callback: the coin reacts to the player and is spliced out; the next coin is skipped. */
    method TakeCoin(ghost c0: seq<Coin>, ghost flags0: seq<bool>, ghost hits: seq<bool>, ghost k: nat, i: nat) returns (ghost k': nat)
      requires Valid() && Distinct(c0) && ScanAt(c0, hits, k, i, tileMap.coins) && k < |c0| && RemovedMask(hits)[k]
      requires CollectedSoFar(c0, flags0, hits, k)
      modifies tileMap`coins, {c0[k]}`collected
      ensures Valid() && ScanAt(c0, hits, k', i + 1, tileMap.coins) && CollectedSoFar(c0, flags0, hits, k') && k < k'
    {
      ScanRemove(c0, hits, k, i, tileMap.coins);
      ScanHere(c0, hits, k, i, tileMap.coins);
      var coin := tileMap.coins[i];
      CollectAt(coin, c0, flags0, hits, k);
      tileMap.RemoveCoinAt(i);
      if k + 1 < |c0| {
        SuccessorSkipped(hits, k);
        PassCollected(c0, flags0, hits, k + 1);
        k' := k + 2;
      } else {
        k' := k + 1;
      }
    }

    /** `coin.onCollideWithPlayer()` for original coin `k`, which the scan removes. */
    method CollectAt(coin: Coin, ghost c0: seq<Coin>, ghost flags0: seq<bool>, ghost hits: seq<bool>, ghost k: nat)
      requires Distinct(c0) && k < |c0| && coin == c0[k] && CollectedSoFar(c0, flags0, hits, k) && RemovedMask(hits)[k]
      modifies coin`collected
      ensures CollectedSoFar(c0, flags0, hits, k + 1)
    {
      coin.OnCollideWithPlayer();
      forall j | 0 <= j < |c0| && j != k
        ensures c0[j].collected == old(c0[j].collected)
      {
        assert c0[j] != coin;
      }
    }

    /** At the end of the scan, exactly the removed map coins have been collected. */
    lemma ScanCollected(c0: seq<Coin>, flags0: seq<bool>, hits: seq<bool>)
      requires CollectedSoFar(c0, flags0, hits, |c0|)
      ensures forall j :: 0 <= j < |c0| ==> c0[j].collected == (flags0[j] || (RemovedMask(hits)[j] && !c0[j].isBlockSpawned))
    {
    }

    /** Passing a coin the scan keeps changes no flag. */
    lemma PassCollected(c0: seq<Coin>, flags0: seq<bool>, hits: seq<bool>, k: nat)
      requires CollectedSoFar(c0, flags0, hits, k) && (k < |c0| ==> !RemovedMask(hits)[k])
      ensures CollectedSoFar(c0, flags0, hits, k + 1)
    {
    }
  }
}
