/**
 * The tile queries of src/services/Map.js and the per-axis resolver of
 * src/services/CollisionDetector.js, stated on values: a snapshot of the
 * foreground layer (`Grid`), the blocks' boxes (`BlockView`) and the moving
 * entity (`Body`). The classes in module World run these same steps on the
 * live objects and are proved equal to them.
 */
module Collision {
  import opened Wrappers
  import opened Tiles
  import opened Layers
  import opened Physics
  import opened Placement

  /** The foreground layer's cells, row-major. */
  datatype Grid = Grid(tiles: seq<Option<Tile>>, width: int, height: int)

  predicate GridOk(g: Grid)
  {
    WellFormed(g.tiles, g.width, g.height)
  }

  /** `isSolidTileAt`. */
  predicate SolidAt(g: Grid, col: int, row: int)
    requires GridOk(g)
  {
    IsSolid(CellAt(g.tiles, g.width, g.height, col, row))
  }

  /** `isPlatformTileAt`. */
  predicate PlatformAt(g: Grid, col: int, row: int)
    requires GridOk(g)
  {
    IsPlatform(CellAt(g.tiles, g.width, g.height, col, row))
  }

  /** Every cell, inside the grid or not, falls in exactly one category; outside it is nothing. */
  function CategoryAt(g: Grid, col: int, row: int): (c: Category)
    requires GridOk(g)
    ensures c == Solid <==> SolidAt(g, col, row)
    ensures c == Platform <==> PlatformAt(g, col, row)
    ensures !InBounds(g.width, g.height, col, row) ==> c == Nothing
  {
    Classify(CellAt(g.tiles, g.width, g.height, col, row))
  }

  /** `isSolidTileInColumn`: some cell of column `col` between the two rows (inclusive) is solid. */
  predicate SolidInColumn(g: Grid, col: int, rowStart: int, rowEnd: int)
    requires GridOk(g)
  {
    exists row :: rowStart <= row <= rowEnd && SolidAt(g, col, row)
  }

  /** `isSolidTileInRow`. */
  predicate SolidInRow(g: Grid, row: int, colStart: int, colEnd: int)
    requires GridOk(g)
  {
    exists col :: colStart <= col <= colEnd && SolidAt(g, col, row)
  }

  /** `isPlatformTileInRow`: a platform cell in the row counts only for an entity that is not rising. */
  predicate PlatformInRow(g: Grid, row: int, colStart: int, colEnd: int, vy: real)
    requires GridOk(g)
  {
    exists col :: colStart <= col <= colEnd && PlatformAt(g, col, row) && vy >= 0.0
  }

  /** An axis-aligned box: position in pixels, whole-pixel size. */
  datatype Box = Box(x: real, y: real, w: int, h: int)

  /** What the resolver reads of a block: its box and whether it was already hit. */
  datatype BlockView = BlockView(box: Box, isHit: bool)

  /** The half-open test of `getBlockAt`. */
  predicate Contains(b: Box, px: real, py: real)
  {
    b.x <= px < b.x + b.w as real && b.y <= py < b.y + b.h as real
  }

  /** `getBlockAt`: the first block, in list order, whose box holds the point. */
  function FirstBlockAt(blocks: seq<BlockView>, px: real, py: real): (r: Option<nat>)
    ensures r.Some? ==> r.value < |blocks| && Contains(blocks[r.value].box, px, py)
  {
    FirstBlockFrom(blocks, px, py, 0)
  }

  function FirstBlockFrom(blocks: seq<BlockView>, px: real, py: real, i: nat): (r: Option<nat>)
    requires i <= |blocks|
    ensures r.Some? ==> i <= r.value < |blocks| && Contains(blocks[r.value].box, px, py)
    decreases |blocks| - i
  {
    if i == |blocks| then None
    else if Contains(blocks[i].box, px, py) then Some(i)
    else FirstBlockFrom(blocks, px, py, i + 1)
  }

  /** The search finds the first block holding the point, and nothing exactly when no block from `i` on holds it. */
  lemma {:induction false} FirstBlockFromFirst(blocks: seq<BlockView>, px: real, py: real, i: nat)
    requires i <= |blocks|
    ensures var r := FirstBlockFrom(blocks, px, py, i);
      (r.Some? ==> forall j :: i <= j < r.value ==> !Contains(blocks[j].box, px, py))
      && (r.None? <==> forall j :: i <= j < |blocks| ==> !Contains(blocks[j].box, px, py))
    decreases |blocks| - i
  {
    if i < |blocks| && !Contains(blocks[i].box, px, py) {
      FirstBlockFromFirst(blocks, px, py, i + 1);
    }
  }

  /** The block that `getBlockAt` finds at the top-left corner of cell (col, tileY). */
  function BlockAtCell(blocks: seq<BlockView>, ts: int, col: int, tileY: int): Option<nat>
  {
    FirstBlockAt(blocks, (col * ts) as real, (tileY * ts) as real)
  }

  /** What `checkBlockCollisionFromBelow` acts on in column `col`: an unhit block, with the entity's top within 5 px of that row's bottom. */
  predicate Hittable(blocks: seq<BlockView>, ts: int, top: real, tileY: int, col: int)
  {
    var i := BlockAtCell(blocks, ts, col, tileY);
    i.Some? && !blocks[i.value].isHit && Abs(top - ((tileY + 1) * ts) as real) < 5.0
  }

  /** The scan of `checkBlockCollisionFromBelow`, from column `col` to `colEnd`: the block it hits, if any. */
  function BlockFromBelow(blocks: seq<BlockView>, ts: int, top: real, tileY: int, col: int, colEnd: int): (r: Option<nat>)
    ensures r.Some? ==> r.value < |blocks| && !blocks[r.value].isHit && Abs(top - ((tileY + 1) * ts) as real) < 5.0
    decreases colEnd - col
  {
    if col > colEnd then None
    else if Hittable(blocks, ts, top, tileY, col) then BlockAtCell(blocks, ts, col, tileY)
    else BlockFromBelow(blocks, ts, top, tileY, col + 1, colEnd)
  }

  /** The scan hits nothing exactly when no column of the range has a hittable block. */
  lemma {:induction false} BlockFromBelowNone(blocks: seq<BlockView>, ts: int, top: real, tileY: int, col: int, colEnd: int)
    ensures BlockFromBelow(blocks, ts, top, tileY, col, colEnd).None?
        <==> forall c :: col <= c <= colEnd ==> !Hittable(blocks, ts, top, tileY, c)
    decreases colEnd - col
  {
    if col <= colEnd && !Hittable(blocks, ts, top, tileY, col) {
      BlockFromBelowNone(blocks, ts, top, tileY, col + 1, colEnd);
    }
  }

  /** A hit is the block of column `c`, the first column of the range with a hittable block. */
  lemma {:induction false} BlockFromBelowFirst(blocks: seq<BlockView>, ts: int, top: real, tileY: int, col: int, colEnd: int)
    returns (c: int)
    requires BlockFromBelow(blocks, ts, top, tileY, col, colEnd).Some?
    ensures col <= c <= colEnd && Hittable(blocks, ts, top, tileY, c)
    ensures BlockAtCell(blocks, ts, c, tileY) == BlockFromBelow(blocks, ts, top, tileY, col, colEnd)
    ensures forall c' :: col <= c' < c ==> !Hittable(blocks, ts, top, tileY, c')
    decreases colEnd - col
  {
    if Hittable(blocks, ts, top, tileY, col) {
      c := col;
    } else {
      assert BlockFromBelow(blocks, ts, top, tileY, col, colEnd) == BlockFromBelow(blocks, ts, top, tileY, col + 1, colEnd);
      c := BlockFromBelowFirst(blocks, ts, top, tileY, col + 1, colEnd);
    }
  }

  /** Columns without a hittable block do not change where the scan stops. */
  lemma {:induction false} BlockFromBelowSkips(blocks: seq<BlockView>, ts: int, top: real, tileY: int, col: int, mid: int, colEnd: int)
    requires col <= mid
    requires forall c :: col <= c < mid ==> !Hittable(blocks, ts, top, tileY, c)
    ensures BlockFromBelow(blocks, ts, top, tileY, col, colEnd) == BlockFromBelow(blocks, ts, top, tileY, mid, colEnd)
    decreases mid - col
  {
    if col < mid {
      BlockFromBelowSkips(blocks, ts, top, tileY, col + 1, mid, colEnd);
    }
  }

  /** The blocks after `hit()` has set the flag of block `hit`, if any. */
  function MarkHit(blocks: seq<BlockView>, hit: Option<nat>): (r: seq<BlockView>)
    ensures |r| == |blocks|
    ensures forall j :: 0 <= j < |blocks| ==>
      r[j] == if hit.Some? && hit.value == j then blocks[j].(isHit := true) else blocks[j]
  {
    if hit.Some? && hit.value < |blocks| then blocks[hit.value := blocks[hit.value].(isHit := true)] else blocks
  }

  /** An entity the resolver moves: position, whole-pixel size, velocity and the grounded flag. */
  datatype Body = Body(x: real, y: real, w: int, h: int, vx: real, vy: real, onGround: bool)
  {
    function BoxOf(): Box { Box(x, y, w, h) }
  }

  /** `checkHorizontalCollisions`: a move into the solid column ahead is pushed back to the tile edge and stopped. */
  function ResolveHorizontal(g: Grid, ts: int, b: Body): (r: Body)
    requires GridOk(g) && ts > 0
    ensures r == b || r == b.(x := r.x, vx := 0.0)
  {
    var left := FloorDiv(b.x, ts);
    var right := FloorDiv(b.x + b.w as real, ts);
    var top := FloorDiv(b.y, ts);
    var bottom := FloorDiv(b.y + b.h as real - 1.0, ts);
    if b.vx > 0.0 && SolidInColumn(g, right, top, bottom) then
      b.(x := (right * ts - b.w) as real, vx := 0.0)
    else if b.vx < 0.0 && SolidInColumn(g, left, top, bottom) then
      b.(x := ((left + 1) * ts) as real, vx := 0.0)
    else b
  }

  /**
   * Moving right into a solid column puts the right edge on that column's
   * left edge; moving left into one puts the left edge on its right edge;
   * either way the body stops and does not move forwards. A body at rest, or
   * one with nothing solid ahead, is left alone.
   */
  lemma HorizontalPushBack(g: Grid, ts: int, b: Body)
    requires GridOk(g) && ts > 0
    ensures var r := ResolveHorizontal(g, ts, b);
      var rows := (FloorDiv(b.y, ts), FloorDiv(b.y + b.h as real - 1.0, ts));
      var right := FloorDiv(b.x + b.w as real, ts);
      var left := FloorDiv(b.x, ts);
      (b.vx == 0.0 ==> r == b)
      && (b.vx > 0.0 ==>
            if SolidInColumn(g, right, rows.0, rows.1)
            then r.x + b.w as real == (right * ts) as real && r.vx == 0.0 && r.x <= b.x
            else r == b)
      && (b.vx < 0.0 ==>
            if SolidInColumn(g, left, rows.0, rows.1)
            then r.x == ((left + 1) * ts) as real && r.vx == 0.0 && r.x > b.x
            else r == b)
  {
    var right := FloorDiv(b.x + b.w as real, ts);
    var left := FloorDiv(b.x, ts);
    FloorDivBounds(b.x + b.w as real, ts, right);
    FloorDivBounds(b.x, ts, left);
  }

  /** The body after the vertical check, and the block it hit from below (an index into the block list). */
  datatype Vertical = Vertical(body: Body, hit: Option<nat>)

  /** The columns and rows `checkVerticalCollisions` looks at. */
  function LeftCol(b: Body, ts: int): int requires ts > 0 { FloorDiv(b.x, ts) }
  function RightCol(b: Body, ts: int): int requires ts > 0 { FloorDiv(b.x + b.w as real - 1.0, ts) }
  function TopRow(b: Body, ts: int): int requires ts > 0 { FloorDiv(b.y, ts) }
  function BottomRow(b: Body, ts: int): int requires ts > 0 { FloorDiv(b.y + b.h as real, ts) }

  /** Whether a non-rising body stands on something: a solid or platform cell in the row under it. */
  predicate LandsOn(g: Grid, ts: int, b: Body)
    requires GridOk(g) && ts > 0
  {
    var row := BottomRow(b, ts);
    SolidInRow(g, row, LeftCol(b, ts), RightCol(b, ts))
    || PlatformInRow(g, row, LeftCol(b, ts), RightCol(b, ts), b.vy)
  }

  /**
   * `checkVerticalCollisions`: the grounded flag is recomputed from scratch; a
   * falling body lands on solid or platform cells; a rising one is stopped by a
   * block it hits from below or by a solid cell, never by a platform.
   */
  function ResolveVertical(g: Grid, ts: int, blocks: seq<BlockView>, b: Body): (r: Vertical)
    requires GridOk(g) && ts > 0
    ensures r.body.x == b.x && r.body.w == b.w && r.body.h == b.h && r.body.vx == b.vx
    ensures r.body.onGround ==> r.body.vy == 0.0 && b.vy >= 0.0
    ensures r.hit.Some? ==> b.vy < 0.0 && r.hit.value < |blocks| && !blocks[r.hit.value].isHit
  {
    var left := LeftCol(b, ts);
    var right := RightCol(b, ts);
    var top := TopRow(b, ts);
    var bottom := BottomRow(b, ts);
    var free := b.(onGround := false);
    if b.vy >= 0.0 then
      if SolidInRow(g, bottom, left, right) || PlatformInRow(g, bottom, left, right, b.vy) then
        Vertical(free.(y := (bottom * ts - b.h) as real, vy := 0.0, onGround := true), None)
      else Vertical(free, None)
    else
      var hit := BlockFromBelow(blocks, ts, b.y, top, left, right);
      if hit.Some? || SolidInRow(g, top, left, right) then
        Vertical(free.(y := ((top + 1) * ts) as real, vy := 0.0), hit)
      else Vertical(free, hit)
  }

  /** Landing: the grounded flag ends true exactly when a non-rising body has solid or platform cells under it, and then it stands on that row. */
  lemma {:induction false} VerticalLanding(g: Grid, ts: int, blocks: seq<BlockView>, b: Body)
    requires GridOk(g) && ts > 0
    ensures var r := ResolveVertical(g, ts, blocks, b);
      (r.body.onGround <==> b.vy >= 0.0 && LandsOn(g, ts, b))
      && (r.body.onGround ==> r.body.y + b.h as real == (BottomRow(b, ts) * ts) as real && r.body.vy == 0.0)
      && (b.vy >= 0.0 && !r.body.onGround ==> r.body == b.(onGround := false) && r.hit.None?)
  {
    var bottom := BottomRow(b, ts);
    assert ((bottom * ts - b.h) as real) + b.h as real == (bottom * ts) as real;
  }

  /**
   * Rising: the body hits the block `BlockFromBelow` finds, if any; it is
   * stopped under the row above it by that block or a solid cell, and by
   * nothing else (platform cells never stop it).
   */
  lemma {:induction false} VerticalRising(g: Grid, ts: int, blocks: seq<BlockView>, b: Body)
    requires GridOk(g) && ts > 0 && b.vy < 0.0
    ensures var r := ResolveVertical(g, ts, blocks, b);
      var top := TopRow(b, ts);
      r.hit == BlockFromBelow(blocks, ts, b.y, top, LeftCol(b, ts), RightCol(b, ts))
      && !r.body.onGround
      && (r.hit.Some? || SolidInRow(g, top, LeftCol(b, ts), RightCol(b, ts)) ==>
            r.body == b.(y := ((top + 1) * ts) as real, vy := 0.0, onGround := false))
      && (r.hit.None? && !SolidInRow(g, top, LeftCol(b, ts), RightCol(b, ts)) ==>
            r.body == b.(onGround := false))
  {
  }

  /** The resolver recomputes the grounded flag, so the incoming one makes no difference. */
  lemma VerticalIgnoresGrounded(g: Grid, ts: int, blocks: seq<BlockView>, b: Body)
    requires GridOk(g) && ts > 0
    ensures ResolveVertical(g, ts, blocks, b.(onGround := false)) == ResolveVertical(g, ts, blocks, b)
  {
  }

  predicate IsWhole(r: real)
  {
    r == r.Floor as real
  }

  /**
   * `updatePosition` after gravity: integrate and resolve x, then integrate
   * and resolve y, then keep x inside the map (`mapWidth` tiles of
   * `TileSize` pixels) and round both coordinates.
   */
  function UpdatePosition(g: Grid, ts: int, blocks: seq<BlockView>, mapWidth: int, b: Body, dt: real): (r: Vertical)
    requires GridOk(g) && ts > 0
    ensures r.body.w == b.w && r.body.h == b.h
  {
    var dy := Travel(b.vy, dt);
    var across := ResolveHorizontal(g, ts, b.(x := b.x + Travel(b.vx, dt)));
    var down := ResolveVertical(g, ts, blocks, across.(y := across.y + dy));
    Vertical(Settle(down.body, mapWidth * TileSize - b.w), down.hit)
  }

  /** The last step of `updatePosition`: x kept between 0 and `limit`, both coordinates rounded. */
  function Settle(b: Body, limit: int): (r: Body)
    ensures r == b.(x := r.x, y := r.y)
    ensures IsWhole(r.x) && IsWhole(r.y) && 0.0 <= r.x
    ensures limit >= 0 ==> r.x <= limit as real
  {
    b.(x := ClampToMap(b.x, limit) as real, y := Round(b.y) as real)
  }

  /**
   * After `updatePosition` the position is whole pixels with x inside the
   * map, each speed is kept or zeroed, a grounded body has stopped falling,
   * and a block is hit only by a rising body and only if it was not hit.
   */
  lemma UpdatePositionBounds(g: Grid, ts: int, blocks: seq<BlockView>, mapWidth: int, b: Body, dt: real)
    requires GridOk(g) && ts > 0
    ensures var r := UpdatePosition(g, ts, blocks, mapWidth, b, dt);
      IsWhole(r.body.x) && IsWhole(r.body.y) && 0.0 <= r.body.x
      && (mapWidth * TileSize - b.w >= 0 ==> r.body.x <= (mapWidth * TileSize - b.w) as real)
      && (r.body.vx == b.vx || r.body.vx == 0.0)
      && (r.body.vy == b.vy || r.body.vy == 0.0)
      && (r.body.onGround ==> r.body.vy == 0.0 && b.vy >= 0.0)
      && (r.hit.Some? ==> b.vy < 0.0 && r.hit.value < |blocks| && !blocks[r.hit.value].isHit)
  {
  }

  /** `UpdatePosition` in terms of its two resolver steps. */
  lemma UpdatePositionSteps(g: Grid, ts: int, blocks: seq<BlockView>, mapWidth: int, b: Body, dt: real,
                            across: Body, down: Vertical, settled: Body)
    requires GridOk(g) && ts > 0
    requires across == ResolveHorizontal(g, ts, b.(x := b.x + Travel(b.vx, dt)))
    requires down == ResolveVertical(g, ts, blocks, across.(y := across.y + Travel(b.vy, dt)))
    requires settled == Settle(down.body, mapWidth * TileSize - b.w)
    ensures UpdatePosition(g, ts, blocks, mapWidth, b, dt) == Vertical(settled, down.hit)
  {
  }

  /** `Math.max(0, Math.min(Math.round(x), limit))`. */
  function ClampToMap(x: real, limit: int): (n: int)
    ensures 0 <= n && (limit >= 0 ==> n <= limit)
    ensures 0 <= Round(x) <= limit ==> n == Round(x)
  {
    var rx := Round(x);
    var cx := if rx <= limit then rx else limit;
    if cx >= 0 then cx else 0
  }

  // ---- The solid cells of a rectangle (`getCollidingTiles`) ----

  /** The solid cells of row `row` from column `col` to `right`, left to right. */
  function SolidRow(g: Grid, row: int, col: int, right: int): seq<Cell>
    requires GridOk(g)
    decreases right - col + 1
  {
    if col > right then []
    else (if SolidAt(g, col, row) then [Cell(col, row)] else []) + SolidRow(g, row, col + 1, right)
  }

  /** The solid cells of the inclusive rectangle, row by row from `top` down. */
  function SolidCells(g: Grid, left: int, top: int, right: int, bottom: int): seq<Cell>
    requires GridOk(g)
    decreases bottom - top + 1
  {
    if top > bottom then []
    else SolidRow(g, top, left, right) + SolidCells(g, left, top + 1, right, bottom)
  }

  /** A row lists exactly its solid cells in the column range, each after the scan's start column. */
  lemma {:induction false} SolidRowMembers(g: Grid, row: int, col: int, right: int, c: Cell)
    requires GridOk(g)
    ensures c in SolidRow(g, row, col, right) <==> c.y == row && col <= c.x <= right && SolidAt(g, c.x, c.y)
    decreases right - col + 1
  {
    if col <= right {
      SolidRowMembers(g, row, col + 1, right, c);
    }
  }

  lemma {:induction false} SolidRowSorted(g: Grid, row: int, col: int, right: int)
    requires GridOk(g)
    ensures RowMajor(SolidRow(g, row, col, right))
    decreases right - col + 1
  {
    if col <= right {
      var rest := SolidRow(g, row, col + 1, right);
      SolidRowSorted(g, row, col + 1, right);
      if SolidAt(g, col, row) {
        var s := [Cell(col, row)] + rest;
        forall k | 0 <= k < |rest|
          ensures rest[k].y == row && col < rest[k].x
        {
          SolidRowMembers(g, row, col + 1, right, rest[k]);
        }
        forall i, j | 0 <= i < j < |s|
          ensures Before(s[i], s[j])
        {
          if i == 0 {
            assert s[j] == rest[j - 1];
          } else {
            assert s[i] == rest[i - 1] && s[j] == rest[j - 1];
          }
        }
      }
    }
  }

  /** The rectangle lists exactly its solid cells: both directions of membership. */
  lemma {:induction false} SolidCellsMembers(g: Grid, left: int, top: int, right: int, bottom: int, c: Cell)
    requires GridOk(g)
    ensures c in SolidCells(g, left, top, right, bottom)
        <==> left <= c.x <= right && top <= c.y <= bottom && SolidAt(g, c.x, c.y)
    decreases bottom - top + 1
  {
    if top <= bottom {
      SolidRowMembers(g, top, left, right, c);
      SolidCellsMembers(g, left, top + 1, right, bottom, c);
    }
  }

  /** The rectangle's solid cells come in strictly increasing row-major order, so none is listed twice. */
  lemma {:induction false} SolidCellsSorted(g: Grid, left: int, top: int, right: int, bottom: int)
    requires GridOk(g)
    ensures RowMajor(SolidCells(g, left, top, right, bottom))
    decreases bottom - top + 1
  {
    if top <= bottom {
      var head := SolidRow(g, top, left, right);
      var rest := SolidCells(g, left, top + 1, right, bottom);
      SolidRowSorted(g, top, left, right);
      SolidCellsSorted(g, left, top + 1, right, bottom);
      var s := head + rest;
      forall i, j | 0 <= i < j < |s|
        ensures Before(s[i], s[j])
      {
        if j < |head| {
          assert s[i] == head[i] && s[j] == head[j];
        } else if i >= |head| {
          assert s[i] == rest[i - |head|] && s[j] == rest[j - |head|];
        } else {
          assert s[i] == head[i] && s[i] in head;
          assert s[j] == rest[j - |head|] && s[j] in rest;
          SolidRowMembers(g, top, left, right, s[i]);
          SolidCellsMembers(g, left, top + 1, right, bottom, s[j]);
        }
      }
    }
  }
}
