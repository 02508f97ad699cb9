/**
 * What `initializeSpecialTiles` (src/services/Map.js) does to the
 * foreground layer, on values: which cells it turns into entities, in the
 * order its row-by-row scan meets them, and what it leaves in each cell.
 */
module Placement {
  import opened Wrappers
  import opened Tiles
  import opened Layers

  /** A tile coordinate: column and row. */
  datatype Cell = Cell(x: int, y: int)

  predicate HasId(t: Option<Tile>, id: int)
  {
    t.Some? && t.value.id == id
  }

  /** A special tile: one the scan replaces by an entity. */
  predicate IsSpecial(t: Option<Tile>)
  {
    HasId(t, BlockId) || HasId(t, GoombaId) || HasId(t, CoinId)
  }

  /** The scan's rewrite of one cell: a block cell becomes blank, a goomba or coin cell empty, anything else stays. */
  function Cleared(t: Option<Tile>): (r: Option<Tile>)
    ensures !IsSpecial(r)
    ensures !IsSpecial(t) ==> r == t
    ensures HasId(t, BlockId) ==> HasId(r, BlankId)
  {
    match t
    case None => None
    case Some(tile) =>
      if tile.id == BlockId then Some(tile.(id := BlankId))
      else if tile.id == GoombaId || tile.id == CoinId then None
      else t
  }

  /** Clearing twice is clearing once. */
  lemma ClearedIdempotent(t: Option<Tile>)
    ensures Cleared(Cleared(t)) == Cleared(t)
  {
  }

  /** Row-major order on cells: earlier row, or same row and earlier column. */
  predicate Before(a: Cell, b: Cell)
  {
    a.y < b.y || (a.y == b.y && a.x < b.x)
  }

  /** A position the nested scan can be at: inside a row (column 0 to width), or past the last row. */
  predicate ScanPoint(width: int, height: int, y: int, x: int)
  {
    0 <= y <= height && 0 <= x <= width && (y == height ==> x == 0)
  }

  /**
   * The cells with tile id `id` that the scan has passed on reaching
   * column `x` of row `y`, in the order it met them.
   */
  function CellsBefore(tiles: seq<Option<Tile>>, width: int, height: int, id: int, y: int, x: int): seq<Cell>
    requires WellFormed(tiles, width, height) && ScanPoint(width, height, y, x)
    decreases y, x
  {
    if x == 0 then
      if y == 0 then [] else CellsBefore(tiles, width, height, id, y - 1, width)
    else
      CellsBefore(tiles, width, height, id, y, x - 1)
      + (if HasId(CellAt(tiles, width, height, x - 1, y), id) then [Cell(x - 1, y)] else [])
  }

  /** Every cell with the id, in scan order. */
  function CellsWithId(tiles: seq<Option<Tile>>, width: int, height: int, id: int): seq<Cell>
    requires WellFormed(tiles, width, height)
  {
    CellsBefore(tiles, width, height, id, height, 0)
  }

  /** Whether the scan has passed cell `c` on reaching column `x` of row `y`. */
  predicate Passed(c: Cell, y: int, x: int)
  {
    c.y < y || (c.y == y && c.x < x)
  }

  /** The scan lists exactly the in-bounds cells with the id that it has passed. */
  lemma {:induction false} CellsBeforeMembers(tiles: seq<Option<Tile>>, width: int, height: int, id: int, y: int, x: int, c: Cell)
    requires WellFormed(tiles, width, height) && ScanPoint(width, height, y, x)
    ensures c in CellsBefore(tiles, width, height, id, y, x)
        <==> InBounds(width, height, c.x, c.y) && HasId(CellAt(tiles, width, height, c.x, c.y), id) && Passed(c, y, x)
    decreases y, x
  {
    if x == 0 {
      if y > 0 {
        CellsBeforeMembers(tiles, width, height, id, y - 1, width, c);
      }
    } else {
      CellsBeforeMembers(tiles, width, height, id, y, x - 1, c);
    }
  }

  /** Every listed cell lies before the scan point. */
  lemma {:induction false} CellsBeforeBounded(tiles: seq<Option<Tile>>, width: int, height: int, id: int, y: int, x: int)
    requires WellFormed(tiles, width, height) && ScanPoint(width, height, y, x)
    ensures forall k :: 0 <= k < |CellsBefore(tiles, width, height, id, y, x)| ==> Passed(CellsBefore(tiles, width, height, id, y, x)[k], y, x)
    decreases y, x
  {
    if x == 0 {
      if y > 0 {
        CellsBeforeBounded(tiles, width, height, id, y - 1, width);
      }
    } else {
      CellsBeforeBounded(tiles, width, height, id, y, x - 1);
    }
  }

  /** Strictly increasing in row-major order. */
  predicate RowMajor(s: seq<Cell>)
  {
    forall i, j :: 0 <= i < j < |s| ==> Before(s[i], s[j])
  }

  /** The scan meets cells in strictly increasing row-major order, so no cell is listed twice. */
  lemma {:induction false} CellsBeforeSorted(tiles: seq<Option<Tile>>, width: int, height: int, id: int, y: int, x: int)
    requires WellFormed(tiles, width, height) && ScanPoint(width, height, y, x)
    ensures RowMajor(CellsBefore(tiles, width, height, id, y, x))
    decreases y, x
  {
    if x == 0 {
      if y > 0 {
        CellsBeforeSorted(tiles, width, height, id, y - 1, width);
      }
    } else {
      var prev := CellsBefore(tiles, width, height, id, y, x - 1);
      CellsBeforeSorted(tiles, width, height, id, y, x - 1);
      CellsBeforeBounded(tiles, width, height, id, y, x - 1);
      if HasId(CellAt(tiles, width, height, x - 1, y), id) {
        var s := prev + [Cell(x - 1, y)];
        assert CellsBefore(tiles, width, height, id, y, x) == s;
        forall i, j | 0 <= i < j < |s|
          ensures Before(s[i], s[j])
        {
          if j == |prev| {
            assert Passed(prev[i], y, x - 1);
          } else {
            assert s[i] == prev[i] && s[j] == prev[j];
          }
        }
        assert RowMajor(s);
      } else {
        assert CellsBefore(tiles, width, height, id, y, x) == prev;
      }
    }
  }
}
