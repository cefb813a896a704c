/** Tile geometry of the side-scroller: cell codes, the constants of the
    world, pixel rectangles in the style of pygame's Rect, the bounds-checked
    solidity query and the span of tiles a rectangle covers. */
module Tiles {

  datatype Option<T> = None | Some(value: T)

  /** Edge of one square tile, in pixels. */
  const TILE: int := 32
  /** Size of the window, in pixels. */
  const WIDTH: int := 1920
  const HEIGHT: int := 1080
  /** A grid cell: code 0 (empty) or code 2 (solid platform). */
  datatype Cell = Empty | Solid

  /** The level grid: a sequence of columns, each a sequence of cells from the top row down. */
  type Grid = seq<seq<Cell>>

  /** Every column holds exactly h cells. */
  predicate Rectangular(tiles: Grid, h: int)
  {
    forall gx :: 0 <= gx < |tiles| ==> |tiles[gx]| == h
  }

  /** A column of h empty cells. */
  function EmptyColumn(h: nat): (col: seq<Cell>)
    ensures |col| == h && forall gy :: 0 <= gy < h ==> col[gy] == Empty
  {
    seq(h, _ => Empty)
  }

  /** The solidity query of the level: total, false off the grid. */
  function SolidAt(tiles: Grid, h: int, gx: int, gy: int): (b: bool)
    requires Rectangular(tiles, h)
    ensures !(0 <= gx < |tiles| && 0 <= gy < h) ==> !b
    ensures 0 <= gx < |tiles| && 0 <= gy < h ==> (b <==> tiles[gx][gy] == Solid)
  {
    0 <= gx < |tiles| && 0 <= gy < h && tiles[gx][gy] == Solid
  }

  /** An axis-aligned integer rectangle; right and bottom are exclusive, as in pygame. */
  datatype Rect = Rect(x: int, y: int, w: int, h: int) {
    function Left(): int { x }
    function Right(): int { x + w }
    function Top(): int { y }
    function Bottom(): int { y + h }
    function CenterX(): int { x + w / 2 }
    function CenterY(): int { y + h / 2 }
    /** The rectangle moved so that its right edge is at v (assignment to rect.right). */
    function WithRight(v: int): Rect { this.(x := v - w) }
    /** The rectangle moved so that its left edge is at v (assignment to rect.left). */
    function WithLeft(v: int): Rect { this.(x := v) }
    /** The rectangle moved so that its bottom edge is at v (assignment to rect.bottom). */
    function WithBottom(v: int): Rect { this.(y := v - h) }
    /** The rectangle moved so that its top edge is at v (assignment to rect.top). */
    function WithTop(v: int): Rect { this.(y := v) }
  }

  function Max(a: int, b: int): int { if a >= b then a else b }
  function Min(a: int, b: int): int { if a <= b then a else b }

  /** The pixel square of tile (gx, gy): TILE by TILE, inside column gx and row gy. */
  function RectFromGrid(gx: int, gy: int): (t: Rect)
    ensures t.w == TILE && t.h == TILE && CoversColumn(t, gx) && CoversRow(t, gy)
  {
    Rect(gx * TILE, gy * TILE, TILE, TILE)
  }

  /** A tile's square is TILE by TILE, and the tile is the only one it overlaps: its
      span of tiles is exactly column gx and row gy. */
  lemma GridRoundTrip(gx: int, gy: int)
    ensures var r := RectFromGrid(gx, gy);
            r.w == TILE && r.h == TILE && TilesFromRect(r) == Span(gx, gx + 1, gy, gy + 1)
  {
    var r := RectFromGrid(gx, gy);
    assert (gx * TILE) / TILE == gx && (gx * TILE + TILE - 1) / TILE == gx;
    assert (gy * TILE) / TILE == gy && (gy * TILE + TILE - 1) / TILE == gy;
  }

  /** The pixel (px, py) lies in the tile whose coordinates are its floor quotients by TILE. */
  lemma PixelInItsTile(px: int, py: int)
    ensures var t := RectFromGrid(px / TILE, py / TILE);
            t.Left() <= px < t.Right() && t.Top() <= py < t.Bottom()
  {
  }

  /** Half-open column range [c0, c1) and row range [r0, r1) of tiles. */
  datatype Span = Span(c0: int, c1: int, r0: int, r1: int)

  /** Column gx of tiles shares pixels with the horizontal extent of r. */
  predicate CoversColumn(r: Rect, gx: int)
  {
    gx * TILE < r.Right() && r.Left() < gx * TILE + TILE
  }

  /** Row gy of tiles shares pixels with the vertical extent of r. */
  predicate CoversRow(r: Rect, gy: int)
  {
    gy * TILE < r.Bottom() && r.Top() < gy * TILE + TILE
  }

  /** The tiles a rectangle overlaps: columns left//TILE .. (right-1)//TILE and rows
      top//TILE .. (bottom-1)//TILE, both inclusive. Exactly the tiles whose square
      shares pixels with the rectangle (with positive area when w and h are positive). */
  function TilesFromRect(r: Rect): (s: Span)
    ensures forall gx :: s.c0 <= gx < s.c1 <==> CoversColumn(r, gx)
    ensures forall gy :: s.r0 <= gy < s.r1 <==> CoversRow(r, gy)
    ensures r.w > 0 ==> s.c0 < s.c1
    ensures r.h > 0 ==> s.r0 < s.r1
  {
    var s := Span(r.Left() / TILE, (r.Right() - 1) / TILE + 1, r.Top() / TILE, (r.Bottom() - 1) / TILE + 1);
    forall gx ensures s.c0 <= gx < s.c1 <==> CoversColumn(r, gx) {
      FloorRange(r.Left(), r.Right(), gx);
    }
    forall gy ensures s.r0 <= gy < s.r1 <==> CoversRow(r, gy) {
      FloorRange(r.Top(), r.Bottom(), gy);
    }
    s
  }

  /** Tile g lies in lo//TILE .. (hi-1)//TILE exactly when its pixels meet [lo, hi). */
  lemma FloorRange(lo: int, hi: int, g: int)
    ensures lo / TILE <= g < (hi - 1) / TILE + 1 <==> (g * TILE < hi && lo < g * TILE + TILE)
  {
    assert TILE * (lo / TILE) <= lo < TILE * (lo / TILE) + TILE;
    assert TILE * ((hi - 1) / TILE) <= hi - 1 < TILE * ((hi - 1) / TILE) + TILE;
    if lo / TILE <= g {
      assert TILE * (lo / TILE) <= TILE * g;
    }
    if g < (hi - 1) / TILE + 1 {
      assert TILE * g <= TILE * ((hi - 1) / TILE);
    }
  }
}
