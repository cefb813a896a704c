/** Axis-separated resolution of a moving rectangle against the tile grid, as
    values: a horizontal pass, then a vertical pass on the rectangle the first
    pass left. Each pass moves the rectangle along one axis, enumerates the tiles
    it then overlaps column by column (rows inner), and lets the first solid one
    clamp the rectangle; the velocity on that axis becomes 0, so later solid
    tiles move nothing. */
module Collision {
  import opened Tiles

  /** A velocity in whole pixels per frame. */
  datatype Vec = Vec(x: int, y: int)

  /** Rectangle, velocity and ground contact after a collision pass. */
  datatype Outcome = Outcome(rect: Rect, vel: Vec, onGround: bool)

  /** (a, b) is enumerated before (c, d) when columns are the outer loop. */
  predicate ColumnMajorBefore(a: int, b: int, c: int, d: int)
  {
    a < c || (a == c && b < d)
  }

  /** The topmost solid tile of column gx among rows [r0, r1). */
  function FirstSolidInColumn(tiles: Grid, h: int, gx: int, r0: int, r1: int): (t: Option<int>)
    requires Rectangular(tiles, h)
    ensures t.Some? ==> r0 <= t.value < r1 && SolidAt(tiles, h, gx, t.value) &&
                        forall gy :: r0 <= gy < t.value ==> !SolidAt(tiles, h, gx, gy)
    ensures t.None? ==> forall gy :: r0 <= gy < r1 ==> !SolidAt(tiles, h, gx, gy)
    decreases r1 - r0
  {
    if r1 <= r0 then None
    else match FirstSolidInColumn(tiles, h, gx, r0, r1 - 1)
      case Some(gy) => Some(gy)
      case None => if SolidAt(tiles, h, gx, r1 - 1) then Some(r1 - 1) else None
  }

  /** The earlier of a hit among earlier columns and a hit in column gx. */
  function Earlier(before: Option<(int, int)>, gx: int, inColumn: Option<int>): Option<(int, int)>
  {
    match before
    case Some(t) => Some(t)
    case None =>
      match inColumn
      case Some(gy) => Some((gx, gy))
      case None => None
  }

  /** The first solid tile of columns [c0, c1) x rows [r0, r1) in column-major order. */
  function FirstSolidTile(tiles: Grid, h: int, c0: int, c1: int, r0: int, r1: int): (t: Option<(int, int)>)
    requires Rectangular(tiles, h)
    ensures t.Some? ==> c0 <= t.value.0 < c1 && r0 <= t.value.1 < r1 && SolidAt(tiles, h, t.value.0, t.value.1) &&
                        forall gx, gy :: c0 <= gx < c1 && r0 <= gy < r1 && ColumnMajorBefore(gx, gy, t.value.0, t.value.1) ==>
                                           !SolidAt(tiles, h, gx, gy)
    ensures t.None? ==> forall gx, gy :: c0 <= gx < c1 && r0 <= gy < r1 ==> !SolidAt(tiles, h, gx, gy)
    decreases c1 - c0
  {
    if c1 <= c0 then None
    else Earlier(FirstSolidTile(tiles, h, c0, c1 - 1, r0, r1), c1 - 1, FirstSolidInColumn(tiles, h, c1 - 1, r0, r1))
  }

  /** Extending the scanned rows of a column by one row. */
  lemma RowStep(tiles: Grid, h: int, gx: int, r0: int, gy: int)
    requires Rectangular(tiles, h) && r0 <= gy
    ensures FirstSolidInColumn(tiles, h, gx, r0, gy + 1) ==
              if FirstSolidInColumn(tiles, h, gx, r0, gy).Some? then FirstSolidInColumn(tiles, h, gx, r0, gy)
              else if SolidAt(tiles, h, gx, gy) then Some(gy) else None
  {
  }

  /** Extending the scanned columns by one column. */
  lemma ColumnStep(tiles: Grid, h: int, c0: int, gx: int, r0: int, r1: int)
    requires Rectangular(tiles, h) && c0 <= gx
    ensures FirstSolidTile(tiles, h, c0, gx + 1, r0, r1) ==
              Earlier(FirstSolidTile(tiles, h, c0, gx, r0, r1), gx, FirstSolidInColumn(tiles, h, gx, r0, r1))
  {
  }

  /** The first solid tile the rectangle overlaps, in column-major order. */
  function FirstHit(tiles: Grid, h: int, r: Rect): Option<(int, int)>
    requires Rectangular(tiles, h)
  {
    var s := TilesFromRect(r);
    FirstSolidTile(tiles, h, s.c0, s.c1, s.r0, s.r1)
  }

  /** Horizontal clamp against the tile hit, if any: moving right puts the right edge on
      the tile's left edge, moving left puts the left edge on the tile's right edge, and
      any hit zeroes the horizontal velocity. */
  function ClampX(m: Rect, v: Vec, hit: Option<(int, int)>): (Rect, Vec)
  {
    match hit
    case None => (m, v)
    case Some((gx, gy)) =>
      var tile := RectFromGrid(gx, gy);
      (if v.x > 0 then m.WithRight(tile.Left()) else if v.x < 0 then m.WithLeft(tile.Right()) else m,
       v.(x := 0))
  }

  /** Vertical clamp against the tile hit, if any; only a downward hit lands on ground. */
  function ClampY(m: Rect, v: Vec, hit: Option<(int, int)>): Outcome
  {
    match hit
    case None => Outcome(m, v, false)
    case Some((gx, gy)) =>
      var tile := RectFromGrid(gx, gy);
      if v.y > 0 then Outcome(m.WithBottom(tile.Top()), v.(y := 0), true)
      else if v.y < 0 then Outcome(m.WithTop(tile.Bottom()), v.(y := 0), false)
      else Outcome(m, v.(y := 0), false)
  }

  /** Moves r by v.x and clamps it against the first solid tile it then overlaps. */
  function HorizontalPass(tiles: Grid, h: int, r: Rect, v: Vec): (Rect, Vec)
    requires Rectangular(tiles, h)
  {
    var m := r.(x := r.x + v.x);
    ClampX(m, v, FirstHit(tiles, h, m))
  }

  /** Moves r by v.y and clamps it against the first solid tile it then overlaps. */
  function VerticalPass(tiles: Grid, h: int, r: Rect, v: Vec): Outcome
    requires Rectangular(tiles, h)
  {
    var m := r.(y := r.y + v.y);
    ClampY(m, v, FirstHit(tiles, h, m))
  }

  /** One frame of collision: the horizontal pass, then the vertical pass on its result. */
  function Collide(tiles: Grid, h: int, r: Rect, v: Vec): Outcome
    requires Rectangular(tiles, h)
  {
    var (r1, v1) := HorizontalPass(tiles, h, r, v);
    VerticalPass(tiles, h, r1, v1)
  }

  /** A clamp moves the rectangle along its own axis only, and only on a hit while moving;
      a hit zeroes that axis's velocity; only a hit while falling lands on ground. */
  lemma ClampKeepsShape(m: Rect, v: Vec, hit: Option<(int, int)>)
    ensures var (r, w) := ClampX(m, v, hit);
            r.y == m.y && r.w == m.w && r.h == m.h && w.y == v.y &&
            (hit.Some? ==> w.x == 0) && (hit.None? || v.x == 0 ==> r == m)
    ensures var o := ClampY(m, v, hit);
            o.rect.x == m.x && o.rect.w == m.w && o.rect.h == m.h && o.vel.x == v.x &&
            (hit.Some? ==> o.vel.y == 0) && (o.onGround <==> hit.Some? && v.y > 0) &&
            (hit.None? || v.y == 0 ==> o.rect == m)
  {
  }

  /** The horizontal pass keeps the row, the size and v.y. */
  lemma HorizontalKeepsShape(tiles: Grid, h: int, r: Rect, v: Vec)
    requires Rectangular(tiles, h)
    ensures var (r1, v1) := HorizontalPass(tiles, h, r, v);
            r1.y == r.y && r1.w == r.w && r1.h == r.h && v1.y == v.y && (v1.x == 0 || v1.x == v.x)
  {
    var m := r.(x := r.x + v.x);
    ClampKeepsShape(m, v, FirstHit(tiles, h, m));
  }

  /** The vertical pass keeps the column, the size and v.x, and reports ground only for
      a body that was falling, whose vel.y is then 0. */
  lemma VerticalKeepsShape(tiles: Grid, h: int, r: Rect, v: Vec)
    requires Rectangular(tiles, h)
    ensures var o := VerticalPass(tiles, h, r, v);
            o.rect.x == r.x && o.rect.w == r.w && o.rect.h == r.h && o.vel.x == v.x &&
            (o.onGround ==> v.y > 0 && o.vel.y == 0)
  {
    var m := r.(y := r.y + v.y);
    ClampKeepsShape(m, v, FirstHit(tiles, h, m));
  }

  /** A frame of collision keeps the body's size, leaves vel.x as it was or zeroes it, and
      reports ground only for a body that was falling, whose vel.y is then 0. */
  lemma CollideKeepsShape(tiles: Grid, h: int, r: Rect, v: Vec)
    requires Rectangular(tiles, h)
    ensures var o := Collide(tiles, h, r, v);
            o.rect.w == r.w && o.rect.h == r.h && (o.vel.x == 0 || o.vel.x == v.x) &&
            (o.onGround ==> v.y > 0 && o.vel.y == 0)
  {
    HorizontalKeepsShape(tiles, h, r, v);
    var (r1, v1) := HorizontalPass(tiles, h, r, v);
    VerticalKeepsShape(tiles, h, r1, v1);
  }

  /** No solid tile among those r overlaps. */
  ghost predicate Clear(tiles: Grid, h: int, r: Rect)
    requires Rectangular(tiles, h)
  {
    forall gx, gy :: CoversColumn(r, gx) && CoversRow(r, gy) ==> !SolidAt(tiles, h, gx, gy)
  }

  /** (gx, gy) is the first solid tile r overlaps, in column-major order. */
  ghost predicate FirstSolidOverlap(tiles: Grid, h: int, r: Rect, gx: int, gy: int)
    requires Rectangular(tiles, h)
  {
    CoversColumn(r, gx) && CoversRow(r, gy) && SolidAt(tiles, h, gx, gy) &&
    forall a, b :: CoversColumn(r, a) && CoversRow(r, b) && ColumnMajorBefore(a, b, gx, gy) ==> !SolidAt(tiles, h, a, b)
  }

  /** FirstHit finds exactly the first solid overlapped tile, and nothing when r is clear. */
  lemma FirstHitIsFirstOverlap(tiles: Grid, h: int, r: Rect)
    requires Rectangular(tiles, h)
    ensures FirstHit(tiles, h, r).None? <==> Clear(tiles, h, r)
    ensures forall gx, gy :: FirstSolidOverlap(tiles, h, r, gx, gy) <==> FirstHit(tiles, h, r) == Some((gx, gy))
  {
    var s := TilesFromRect(r);
    var t := FirstHit(tiles, h, r);
    if t.Some? {
      assert FirstSolidOverlap(tiles, h, r, t.value.0, t.value.1);
    }
    forall gx, gy | FirstSolidOverlap(tiles, h, r, gx, gy) ensures t == Some((gx, gy)) {
      assert s.c0 <= gx < s.c1 && s.r0 <= gy < s.r1;
    }
  }

  /** Horizontal pass with no solid tile overlapped after the move: only x changes. */
  lemma HorizontalMiss(tiles: Grid, h: int, r: Rect, v: Vec)
    requires Rectangular(tiles, h)
    requires Clear(tiles, h, r.(x := r.x + v.x))
    ensures HorizontalPass(tiles, h, r, v) == (r.(x := r.x + v.x), v)
  {
    FirstHitIsFirstOverlap(tiles, h, r.(x := r.x + v.x));
  }

  /** Horizontal pass whose moved rectangle first overlaps solid tile (gx, gy): the
      horizontal velocity becomes 0, the rectangle keeps its row and size, and its
      right edge (moving right) or left edge (moving left) lands on that tile's edge. */
  lemma HorizontalHit(tiles: Grid, h: int, r: Rect, v: Vec, gx: int, gy: int)
    requires Rectangular(tiles, h)
    requires FirstSolidOverlap(tiles, h, r.(x := r.x + v.x), gx, gy)
    ensures var (r', v') := HorizontalPass(tiles, h, r, v);
            v' == Vec(0, v.y) && r'.y == r.y && r'.w == r.w && r'.h == r.h &&
            (v.x > 0 ==> r'.Right() == gx * TILE) &&
            (v.x < 0 ==> r'.Left() == gx * TILE + TILE) &&
            (v.x == 0 ==> r' == r)
  {
    FirstHitIsFirstOverlap(tiles, h, r.(x := r.x + v.x));
  }

  /** Vertical pass with no solid tile overlapped after the move: only y changes and the
      rectangle is not on ground. */
  lemma VerticalMiss(tiles: Grid, h: int, r: Rect, v: Vec)
    requires Rectangular(tiles, h)
    requires Clear(tiles, h, r.(y := r.y + v.y))
    ensures VerticalPass(tiles, h, r, v) == Outcome(r.(y := r.y + v.y), v, false)
  {
    FirstHitIsFirstOverlap(tiles, h, r.(y := r.y + v.y));
  }

  /** Vertical pass whose moved rectangle first overlaps solid tile (gx, gy): the vertical
      velocity becomes 0; moving down puts the bottom edge on the tile's top edge and is
      the only case that lands on ground; moving up puts the top edge on its bottom edge. */
  lemma VerticalHit(tiles: Grid, h: int, r: Rect, v: Vec, gx: int, gy: int)
    requires Rectangular(tiles, h)
    requires FirstSolidOverlap(tiles, h, r.(y := r.y + v.y), gx, gy)
    ensures var o := VerticalPass(tiles, h, r, v);
            o.vel == Vec(v.x, 0) && o.rect.x == r.x && o.rect.w == r.w && o.rect.h == r.h &&
            o.onGround == (v.y > 0) &&
            (v.y > 0 ==> o.rect.Bottom() == gy * TILE) &&
            (v.y < 0 ==> o.rect.Top() == gy * TILE + TILE) &&
            (v.y == 0 ==> o.rect == r)
  {
    FirstHitIsFirstOverlap(tiles, h, r.(y := r.y + v.y));
  }

  /** The vertical pass reports ground contact exactly when the rectangle was moving down
      and overlaps some solid tile after the move. */
  lemma OnGroundIff(tiles: Grid, h: int, r: Rect, v: Vec)
    requires Rectangular(tiles, h)
    ensures VerticalPass(tiles, h, r, v).onGround <==> v.y > 0 && !Clear(tiles, h, r.(y := r.y + v.y))
  {
    FirstHitIsFirstOverlap(tiles, h, r.(y := r.y + v.y));
  }

  /** A rectangle that overlaps no solid tile, stands with its bottom edge on the top of
      a row holding a solid tile under it, and falls by at most one tile this frame with
      no horizontal speed, ends the frame where it was, on ground, with zero velocity. */
  lemma RestingStaysGrounded(tiles: Grid, h: int, r: Rect, vy: int, gx: int)
    requires Rectangular(tiles, h)
    requires r.w > 0 && r.h > 0 && 0 < vy <= TILE
    requires Clear(tiles, h, r)
    requires r.Bottom() % TILE == 0 && CoversColumn(r, gx) && SolidAt(tiles, h, gx, r.Bottom() / TILE)
    ensures Collide(tiles, h, r, Vec(0, vy)) == Outcome(r, Vec(0, 0), true)
  {
    assert r.(x := r.x + 0) == r;
    HorizontalMiss(tiles, h, r, Vec(0, vy));
    RestingLands(tiles, h, r, vy, gx);
  }

  /** The vertical pass of a resting body lands it back where it stood. */
  lemma RestingLands(tiles: Grid, h: int, r: Rect, vy: int, gx: int)
    requires Rectangular(tiles, h)
    requires r.w > 0 && r.h > 0 && 0 < vy <= TILE
    requires r.Bottom() % TILE == 0 && CoversColumn(r, gx) && SolidAt(tiles, h, gx, r.Bottom() / TILE)
    requires Clear(tiles, h, r)
    ensures VerticalPass(tiles, h, r, Vec(0, vy)) == Outcome(r, Vec(0, 0), true)
  {
    var m := r.(y := r.y + vy);
    var row := r.Bottom() / TILE;
    assert CoversColumn(m, gx) && CoversRow(m, row);
    FirstHitIsFirstOverlap(tiles, h, m);
    var t := FirstHit(tiles, h, m).value;
    assert FirstSolidOverlap(tiles, h, m, t.0, t.1);
    if t.1 < row {
      FallingRowsAbove(r, vy, t.1);
      assert false;
    }
    VerticalHit(tiles, h, r, Vec(0, vy), t.0, row);
  }

  /** After a fall of at most one tile, a row above the row the bottom edge stood on was
      already overlapped before the fall. */
  lemma FallingRowsAbove(r: Rect, vy: int, gy: int)
    requires r.h > 0 && 0 < vy <= TILE && r.Bottom() % TILE == 0
    requires CoversRow(r.(y := r.y + vy), gy) && gy < r.Bottom() / TILE
    ensures CoversRow(r, gy)
  {
  }
}
