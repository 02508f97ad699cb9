/**
 * Tile identifiers and the total classification of a grid cell
 * (src/services/Tile.js, src/services/Map.js).
 */
module Tiles {
  import opened Wrappers

  /** Size of a tile in pixels (Tile.SIZE). */
  const TileSize: int := 16
  const CoinId: int := 5
  const BlankId: int := 19
  const BlockId: int := 21
  const GoombaId: int := 23
  const PlatformLeftId: int := 3
  const PlatformRightId: int := 4

  /** A tile object; the sprite table it shares with every other tile is rendering only. */
  datatype Tile = Tile(id: int)

  /** What an entity meets in a cell. */
  datatype Category = Solid | Platform | Nothing

  /** `isSolidTileAt` on the tile already looked up: present, not -1, not a platform piece. */
  predicate IsSolid(t: Option<Tile>)
  {
    t.Some? && t.value.id != -1 && t.value.id != PlatformLeftId && t.value.id != PlatformRightId
  }

  /** `isPlatformTileAt` on the tile already looked up. */
  predicate IsPlatform(t: Option<Tile>)
  {
    t.Some? && (t.value.id == PlatformLeftId || t.value.id == PlatformRightId)
  }

  /** The category of a cell; every cell has exactly one. */
  function Classify(t: Option<Tile>): (c: Category)
    ensures c == Solid <==> IsSolid(t)
    ensures c == Platform <==> IsPlatform(t)
    ensures t.None? ==> c == Nothing
  {
    match t
    case None => Nothing
    case Some(tile) =>
      if tile.id == PlatformLeftId || tile.id == PlatformRightId then Platform
      else if tile.id == -1 then Nothing
      else Solid
  }
}
