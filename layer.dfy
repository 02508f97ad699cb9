/**
 * The row-major tile grid of one map layer (src/services/Layer.js).
 * The pure functions describe a grid value; class `Layer` holds the array
 * the game writes in place.
 */
module Layers {
  import opened Wrappers
  import opened Tiles

  /** `isInBounds`. */
  predicate InBounds(width: int, height: int, x: int, y: int)
  {
    0 <= x < width && 0 <= y < height
  }

  /** The array slot of cell (x, y). */
  function Index(width: int, x: int, y: int): int
  {
    x + y * width
  }

  /** Every in-bounds cell has a slot inside the array. */
  lemma IndexInRange(width: int, height: int, x: int, y: int)
    requires InBounds(width, height, x, y)
    ensures 0 <= Index(width, x, y) < width * height
  {
    assert 0 <= y * width by { MulNonNegative(y, width); }
    assert y * width + width <= height * width by { MulMonotone(y + 1, height, width); }
  }

  /** Distinct in-bounds cells never share a slot. */
  lemma IndexInjective(width: int, height: int, x1: int, y1: int, x2: int, y2: int)
    requires InBounds(width, height, x1, y1) && InBounds(width, height, x2, y2)
    requires Index(width, x1, y1) == Index(width, x2, y2)
    ensures x1 == x2 && y1 == y2
  {
    if y1 < y2 {
      MulMonotone(y1 + 1, y2, width);
      assert false;
    } else if y2 < y1 {
      MulMonotone(y2 + 1, y1, width);
      assert false;
    }
  }

  lemma MulNonNegative(a: int, b: int)
    requires 0 <= a && 0 <= b
    ensures 0 <= a * b
  {
  }

  lemma MulMonotone(a: int, b: int, c: int)
    requires a <= b && 0 <= c
    ensures a * c <= b * c
  {
    assert b * c - a * c == (b - a) * c;
    MulNonNegative(b - a, c);
  }

  /** A grid of `width * height` cells in row-major order. */
  predicate WellFormed(tiles: seq<Option<Tile>>, width: int, height: int)
  {
    0 <= width && 0 <= height && |tiles| == width * height
  }

  /** `getTile` on a grid value: the stored cell, or null outside the grid. */
  function CellAt(tiles: seq<Option<Tile>>, width: int, height: int, x: int, y: int): Option<Tile>
    requires WellFormed(tiles, width, height)
  {
    if InBounds(width, height, x, y) then
      IndexInRange(width, height, x, y);
      tiles[Index(width, x, y)]
    else None
  }

  /** `setTile` on a grid value. */
  function WithCell(tiles: seq<Option<Tile>>, width: int, height: int, x: int, y: int, t: Option<Tile>): (r: seq<Option<Tile>>)
    requires WellFormed(tiles, width, height)
    ensures WellFormed(r, width, height)
  {
    if InBounds(width, height, x, y) then
      IndexInRange(width, height, x, y);
      tiles[Index(width, x, y) := t]
    else tiles
  }

  /** Reading back after a write: the written cell holds the new tile, every other cell is as before. */
  lemma CellAtWithCell(tiles: seq<Option<Tile>>, width: int, height: int, x: int, y: int, t: Option<Tile>, x': int, y': int)
    requires WellFormed(tiles, width, height)
    ensures CellAt(WithCell(tiles, width, height, x, y, t), width, height, x', y')
         == if InBounds(width, height, x, y) && x' == x && y' == y then t else CellAt(tiles, width, height, x', y')
  {
    if InBounds(width, height, x, y) && InBounds(width, height, x', y') {
      IndexInRange(width, height, x, y);
      IndexInRange(width, height, x', y');
      if Index(width, x, y) == Index(width, x', y') {
        IndexInjective(width, height, x, y, x', y');
      }
    }
  }

  /** `new Tile(tileId - 1)` for a non-zero map-file id, null for 0. */
  function TileFor(tileId: int): Option<Tile>
  {
    if tileId == 0 then None else Some(Tile(tileId - 1))
  }

  /** A whole map-file layer, cell by cell. */
  ghost function Decoded(data: seq<int>): (r: seq<Option<Tile>>)
    ensures |r| == |data| && forall i :: 0 <= i < |data| ==> r[i] == TileFor(data[i])
  {
    seq(|data|, i requires 0 <= i < |data| => TileFor(data[i]))
  }

  class Layer {
    var tiles: seq<Option<Tile>>
    const width: int
    const height: int

    ghost predicate Valid()
      reads this
    {
      WellFormed(tiles, width, height)
    }

    /** The map file supplies `width * height` ids, one per cell, row by row. */
    constructor (data: seq<int>, width: int, height: int)
      requires 0 <= width && 0 <= height && |data| == width * height
      ensures Valid() && this.width == width && this.height == height
      ensures forall i :: 0 <= i < |data| ==> tiles[i] == TileFor(data[i])
    {
      this.width := width;
      this.height := height;
      new;
      tiles := GenerateTiles(data);
    }

    predicate IsInBounds(x: int, y: int)
    {
      InBounds(width, height, x, y)
    }

    /** The tile at (x, y): the stored cell inside the layer, null outside it. */
    function GetTile(x: int, y: int): (t: Option<Tile>)
      reads this
      requires Valid()
      ensures !IsInBounds(x, y) ==> t.None?
      ensures IsInBounds(x, y) ==> 0 <= Index(width, x, y) < |tiles| && t == tiles[Index(width, x, y)]
      ensures t == CellAt(tiles, width, height, x, y)
    {
      if IsInBounds(x, y) then
        IndexInRange(width, height, x, y);
        tiles[x + y * width]
      else None
    }

    /** Writes one in-bounds cell; an out-of-bounds write does nothing. */
    method SetTile(x: int, y: int, tile: Option<Tile>)
      requires Valid()
      modifies this`tiles
      ensures Valid()
      ensures tiles == WithCell(old(tiles), width, height, x, y, tile)
      ensures !IsInBounds(x, y) ==> tiles == old(tiles)
      ensures IsInBounds(x, y) ==> GetTile(x, y) == tile
    {
      if IsInBounds(x, y) {
        IndexInRange(width, height, x, y);
        tiles := tiles[x + y * width := tile];
      }
    }

    /**
     * Changes the id of the addressed tile. The tile must exist (the source
     * dereferences it); each cell holds its own Tile object, so renaming it
     * is the same as storing a tile with the new id.
     */
    method SetTileId(x: int, y: int, id: int)
      requires Valid()
      requires IsInBounds(x, y) ==> GetTile(x, y).Some?
      modifies this`tiles
      ensures Valid()
      ensures tiles == WithCell(old(tiles), width, height, x, y, Some(Tile(id)))
      ensures !IsInBounds(x, y) ==> tiles == old(tiles)
      ensures IsInBounds(x, y) ==> GetTile(x, y) == Some(old(GetTile(x, y)).value.(id := id))
    {
      if IsInBounds(x, y) {
        IndexInRange(width, height, x, y);
        var tile := tiles[x + y * width].value;
        tiles := tiles[x + y * width := Some(tile.(id := id))];
      }
    }

    /** One tile (or null) per map-file id, in the same order. */
    static method GenerateTiles(data: seq<int>) returns (tiles: seq<Option<Tile>>)
      ensures |tiles| == |data|
      ensures forall i :: 0 <= i < |data| ==> (tiles[i].None? <==> data[i] == 0)
      ensures forall i :: 0 <= i < |data| && data[i] != 0 ==> tiles[i] == Some(Tile(data[i] - 1))
      ensures forall i :: 0 <= i < |data| ==> tiles[i] == TileFor(data[i])
    {
      tiles := [];
      var i := 0;
      while i < |data|
        invariant 0 <= i <= |data|
        invariant |tiles| == i
        invariant forall k :: 0 <= k < i ==> tiles[k] == TileFor(data[k])
      {
        var tile := if data[i] == 0 then None else Some(Tile(data[i] - 1));
        tiles := tiles + [tile];
        i := i + 1;
      }
    }
  }
}
