/** The moving bodies of the game: a rectangle with a velocity that collides
    with the level, the patrolling enemy, and the player's ammunition and reload
    state. */
module Entities {
  import opened Tiles
  import opened Collision
  import opened Levels

  const ENEMY_SPEED: int := 2
  const MAG_CAPACITY: int := 12
  /** Milliseconds a reload takes. */
  const RELOAD_MS: int := 1000
  const PLAYER_HEALTH: int := 4

  /** A body in the level: its pixel rectangle and velocity. Player and enemy each own one. */
  class Entity {
    var rect: Rect
    var vel: Vec

    constructor (x: int, y: int, w: int, h: int)
      ensures rect == Rect(x, y, w, h) && vel == Vec(0, 0)
    {
      rect := Rect(x, y, w, h);
      vel := Vec(0, 0);
    }

    /** Moves by vel.x and resolves against the tiles then overlapped, column by column
        with rows inner; then the same on y. Returns whether a downward move was stopped. */
    method CollideLevel(level: Level) returns (onGround: bool)
      requires level.Valid()
      modifies this
      ensures Outcome(rect, vel, onGround) == Collide(level.tiles, level.hTiles, old(rect), old(vel))
    {
      var o := Resolve(level.tiles, level.hTiles, rect, vel);
      rect, vel, onGround := o.rect, o.vel, o.onGround;
    }
  }

  /** The two passes of collide_level on a body's rectangle r0 and velocity v0. */
  method Resolve(tiles: Grid, h: int, r0: Rect, v0: Vec) returns (o: Outcome)
    requires Rectangular(tiles, h)
    ensures o == Collide(tiles, h, r0, v0)
  {
    var r, v := ResolveX(tiles, h, r0.(x := r0.x + v0.x), v0);
    ghost var across := HorizontalPass(tiles, h, r0, v0);
    assert across == (r, v);
    var r', v', g := ResolveY(tiles, h, r.(y := r.y + v.y), v);
    o := Outcome(r', v', g);
    assert o == VerticalPass(tiles, h, r, v);
  }

  /** The horizontal pass's loop over the tiles the moved rectangle m overlaps: every
      solid one clamps the rectangle while vx is non-zero and then zeroes vx. */
  method ResolveX(tiles: Grid, h: int, m: Rect, v: Vec) returns (r: Rect, w: Vec)
    requires Rectangular(tiles, h)
    ensures (r, w) == ClampX(m, v, FirstHit(tiles, h, m))
  {
    r, w := m, v;
    var s := TilesFromRect(m);
    var gx := s.c0;
    while gx < s.c1
      invariant s.c0 <= gx && (gx <= s.c1 || gx == s.c0)
      invariant (r, w) == ClampX(m, v, FirstSolidTile(tiles, h, s.c0, gx, s.r0, s.r1))
    {
      r, w := ColumnX(tiles, h, m, v, s.c0, gx, s.r0, s.r1, r, w);
      gx := gx + 1;
    }
  }

  /** The inner loop of the horizontal pass, over the rows of column gx. */
  method ColumnX(tiles: Grid, h: int, m: Rect, v: Vec, c0: int, gx: int, r0: int, r1: int, r: Rect, w: Vec)
    returns (r': Rect, w': Vec)
    requires Rectangular(tiles, h) && c0 <= gx
    requires (r, w) == ClampX(m, v, FirstSolidTile(tiles, h, c0, gx, r0, r1))
    ensures (r', w') == ClampX(m, v, FirstSolidTile(tiles, h, c0, gx + 1, r0, r1))
  {
    r', w' := r, w;
    ghost var before := FirstSolidTile(tiles, h, c0, gx, r0, r1);
    ghost var hit := before;
    var gy := r0;
    while gy < r1
      invariant r0 <= gy && (gy <= r1 || gy == r0)
      invariant hit == Earlier(before, gx, FirstSolidInColumn(tiles, h, gx, r0, gy))
      invariant (r', w') == ClampX(m, v, hit)
    {
      RowStep(tiles, h, gx, r0, gy);
      if SolidAt(tiles, h, gx, gy) {
        var tile := RectFromGrid(gx, gy);
        if w'.x > 0 {
          r' := r'.WithRight(tile.Left());
        } else if w'.x < 0 {
          r' := r'.WithLeft(tile.Right());
        }
        w' := w'.(x := 0);
        if hit.None? {
          hit := Some((gx, gy));
        }
      }
      gy := gy + 1;
    }
    ColumnStep(tiles, h, c0, gx, r0, r1);
  }

  /** The vertical pass's loop over the tiles the moved rectangle m overlaps: every solid
      one clamps the rectangle while vy is non-zero and then zeroes vy; a clamp while
      falling sets onGround. */
  method ResolveY(tiles: Grid, h: int, m: Rect, v: Vec) returns (r: Rect, w: Vec, onGround: bool)
    requires Rectangular(tiles, h)
    ensures Outcome(r, w, onGround) == ClampY(m, v, FirstHit(tiles, h, m))
  {
    r, w, onGround := m, v, false;
    var s := TilesFromRect(m);
    var gx := s.c0;
    while gx < s.c1
      invariant s.c0 <= gx && (gx <= s.c1 || gx == s.c0)
      invariant Outcome(r, w, onGround) == ClampY(m, v, FirstSolidTile(tiles, h, s.c0, gx, s.r0, s.r1))
    {
      r, w, onGround := ColumnY(tiles, h, m, v, s.c0, gx, s.r0, s.r1, r, w, onGround);
      gx := gx + 1;
    }
  }

  /** The inner loop of the vertical pass, over the rows of column gx. */
  method ColumnY(tiles: Grid, h: int, m: Rect, v: Vec, c0: int, gx: int, r0: int, r1: int,
                 r: Rect, w: Vec, onGround: bool)
    returns (r': Rect, w': Vec, onGround': bool)
    requires Rectangular(tiles, h) && c0 <= gx
    requires Outcome(r, w, onGround) == ClampY(m, v, FirstSolidTile(tiles, h, c0, gx, r0, r1))
    ensures Outcome(r', w', onGround') == ClampY(m, v, FirstSolidTile(tiles, h, c0, gx + 1, r0, r1))
  {
    r', w', onGround' := r, w, onGround;
    ghost var before := FirstSolidTile(tiles, h, c0, gx, r0, r1);
    ghost var hit := before;
    var gy := r0;
    while gy < r1
      invariant r0 <= gy && (gy <= r1 || gy == r0)
      invariant hit == Earlier(before, gx, FirstSolidInColumn(tiles, h, gx, r0, gy))
      invariant Outcome(r', w', onGround') == ClampY(m, v, hit)
    {
      RowStep(tiles, h, gx, r0, gy);
      if SolidAt(tiles, h, gx, gy) {
        var tile := RectFromGrid(gx, gy);
        if w'.y > 0 {
          r' := r'.WithBottom(tile.Top());
          onGround' := true;
        } else if w'.y < 0 {
          r' := r'.WithTop(tile.Bottom());
        }
        w' := w'.(y := 0);
        if hit.None? {
          hit := Some((gx, gy));
        }
      }
      gy := gy + 1;
    }
    ColumnStep(tiles, h, c0, gx, r0, r1);
  }

  /** The tile an enemy probes before stepping: half a tile ahead of its centre in the
      direction it faces, in the row holding pixel bottom + 1. As bottom is exclusive,
      that is the row under its feet when bottom is tile-aligned, and one row lower
      when bottom is TILE - 1 modulo TILE. */
  function ProbeTile(r: Rect, direction: int): (t: (int, int))
    ensures t.0 * TILE <= r.CenterX() + direction * TILE / 2 < t.0 * TILE + TILE
    ensures t.1 * TILE <= r.Bottom() + 1 < t.1 * TILE + TILE
  {
    ((r.CenterX() + direction * TILE / 2) / TILE, (r.Bottom() + 1) / TILE)
  }

  /** For an enemy one tile wide, facing right probes the column holding the first pixel
      past its right edge, facing left the column holding its own leftmost pixel; the row
      is the one holding the pixel just under its bottom edge when it stands on a tile
      boundary. */
  lemma ProbeColumns(r: Rect, direction: int)
    requires r.w == TILE && direction in {-1, 1}
    ensures direction == 1 ==> ProbeTile(r, direction).0 == r.Right() / TILE
    ensures direction == -1 ==> ProbeTile(r, direction).0 == r.Left() / TILE
    ensures r.Bottom() % TILE == 0 ==> ProbeTile(r, direction).1 == r.Bottom() / TILE
  {
  }

  /** The patrol rule: keep the direction while the probed tile is solid, turn round
      when it is not (about to walk off a platform edge or into a gap). */
  function Patrol(tiles: Grid, h: int, r: Rect, direction: int): (d: int)
    requires Rectangular(tiles, h) && direction in {-1, 1}
    ensures d in {-1, 1}
    ensures d == direction <==> SolidAt(tiles, h, ProbeTile(r, direction).0, ProbeTile(r, direction).1)
    ensures d == -direction <==> !SolidAt(tiles, h, ProbeTile(r, direction).0, ProbeTile(r, direction).1)
  {
    var (px, py) := ProbeTile(r, direction);
    if SolidAt(tiles, h, px, py) then direction else -direction
  }

  class Enemy {
    const body: Entity
    var direction: int

    ghost predicate Valid()
      reads this
    {
      direction in {-1, 1}
    }

    /** An enemy one tile square with its top-left corner at (x, y), facing `direction`
        (drawn at random from {-1, 1} by the game). */
    constructor (x: int, y: int, direction: int)
      requires direction in {-1, 1}
      ensures Valid() && this.direction == direction && fresh(body)
      ensures body.rect == Rect(x, y, TILE, TILE) && body.vel == Vec(0, 0)
    {
      body := new Entity(x, y, TILE, TILE);
      this.direction := direction;
    }

    /** One frame: the horizontal speed follows the current facing, then the facing is
        updated by the patrol rule, then gravity and collision move the body. The step of
        this frame therefore still goes the old way. */
    method Update(level: Level, gravity: int)
      requires Valid() && level.Valid()
      modifies this, body
      ensures Valid()
      ensures direction == Patrol(level.tiles, level.hTiles, old(body.rect), old(direction))
      ensures var o := Collide(level.tiles, level.hTiles, old(body.rect),
                               Vec(ENEMY_SPEED * old(direction), old(body.vel.y) + gravity));
              body.rect == o.rect && body.vel == o.vel
    {
      var r0, d0 := body.rect, direction;
      body.vel := body.vel.(x := ENEMY_SPEED * d0);
      var aheadX := (r0.CenterX() + d0 * TILE / 2) / TILE;
      if !level.IsSolid(aheadX, (r0.Bottom() + 1) / TILE) {
        direction := d0 * -1;
      }
      assert direction == Patrol(level.tiles, level.hTiles, r0, d0);
      body.vel := body.vel.(y := body.vel.y + gravity);
      assert body.vel == Vec(ENEMY_SPEED * d0, old(body.vel.y) + gravity);
      var _ := body.CollideLevel(level);
    }
  }

  /** Where a shot leaves from and the aim vector it is fired along. */
  datatype Shot = Shot(x: int, y: int, dx: int, dy: int)

  class Player {
    const body: Entity
    var health: int
    var ammo: int
    var reloading: bool
    var reloadStart: int
    var onGround: bool

    /** The magazine never holds fewer than 0 or more than MAG_CAPACITY rounds. */
    ghost predicate Valid()
      reads this
    {
      0 <= ammo <= MAG_CAPACITY
    }

    /** A player TILE wide and 48 tall with its top-left corner at (x, y), full health and
        a full magazine. */
    constructor (x: int, y: int)
      ensures Valid() && fresh(body)
      ensures body.rect == Rect(x, y, TILE, PLAYER_H) && body.vel == Vec(0, 0)
      ensures health == PLAYER_HEALTH && ammo == MAG_CAPACITY && !reloading && reloadStart == 0
    {
      body := new Entity(x, y, TILE, PLAYER_H);
      health := PLAYER_HEALTH;
      ammo := MAG_CAPACITY;
      reloading := false;
      reloadStart := 0;
      onGround := false;
    }

    /** Starts a reload at time `now`, unless one is under way or the magazine is full. */
    method TryReload(now: int)
      requires Valid()
      modifies this`reloading, this`reloadStart
      ensures Valid()
      ensures old(reloading) || ammo == MAG_CAPACITY ==>
                reloading == old(reloading) && reloadStart == old(reloadStart)
      ensures !old(reloading) && ammo < MAG_CAPACITY ==> reloading && reloadStart == now
    {
      if reloading || ammo == MAG_CAPACITY {
        return;
      }
      reloading := true;
      reloadStart := now;
    }

    /** Fires toward (tx, ty): when not reloading and the magazine is not empty, one round
        is spent; a shot leaves the body's centre unless the target is that very centre. */
    method Shoot(tx: int, ty: int) returns (shot: Option<Shot>)
      requires Valid()
      modifies this`ammo
      ensures Valid()
      ensures !reloading && old(ammo) > 0 ==> ammo == old(ammo) - 1
      ensures reloading || old(ammo) <= 0 ==> ammo == old(ammo) && shot == None
      ensures var cx, cy := body.rect.CenterX(), body.rect.CenterY();
              shot.Some? <==> !reloading && old(ammo) > 0 && (tx, ty) != (cx, cy)
      ensures shot.Some? ==> shot.value == Shot(body.rect.CenterX(), body.rect.CenterY(),
                                                tx - body.rect.CenterX(), ty - body.rect.CenterY())
    {
      if reloading || ammo <= 0 {
        return None;
      }
      ammo := ammo - 1;
      var dx, dy := tx - body.rect.CenterX(), ty - body.rect.CenterY();
      if dx * dx + dy * dy != 0 {
        shot := Some(Shot(body.rect.CenterX(), body.rect.CenterY(), dx, dy));
      } else {
        shot := None;
      }
    }

    /** One frame after input handling: a reload that has lasted RELOAD_MS by `now` refills
        the magazine; then gravity and collision move the body and set onGround. */
    method Update(level: Level, now: int, gravity: int)
      requires Valid() && level.Valid()
      modifies this`ammo, this`reloading, this`onGround, body
      ensures Valid()
      ensures old(reloading) && now - reloadStart >= RELOAD_MS ==> ammo == MAG_CAPACITY && !reloading
      ensures !(old(reloading) && now - reloadStart >= RELOAD_MS) ==>
                ammo == old(ammo) && reloading == old(reloading)
      ensures Outcome(body.rect, body.vel, onGround) ==
              Collide(level.tiles, level.hTiles, old(body.rect), old(body.vel).(y := old(body.vel.y) + gravity))
    {
      if reloading && now - reloadStart >= RELOAD_MS {
        ammo := MAG_CAPACITY;
        reloading := false;
      }
      var r0, v1 := body.rect, body.vel.(y := body.vel.y + gravity);
      assert v1 == old(body.vel).(y := old(body.vel.y) + gravity);
      body.vel := v1;
      var g := body.CollideLevel(level);
      assert Outcome(body.rect, body.vel, g) == Collide(level.tiles, level.hTiles, r0, v1);
      onGround := g;
    }
  }
}
