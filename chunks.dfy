/** What one call of the chunk generator produces, as values: the CHUNK_W new
    columns with their platform runs, and the enemy spawns found by scanning
    them. The random source is injected as sequences of draws. */
module Chunks {
  import opened Tiles

  /** Width of one chunk, in columns. */
  const CHUNK_W: int := 120
  /** Platform runs per chunk: int(CHUNK_W * PLATFORM_DENSITY) with PLATFORM_DENSITY = 0.35. */
  const PLATFORMS_PER_CHUNK: int := 42
  /** Platform lengths are drawn from [MIN_RUN, MAX_RUN]. */
  const MIN_RUN: int := 4
  const MAX_RUN: int := 8
  /** Platform rows are drawn from [TOP_MARGIN, h - BOTTOM_MARGIN]. */
  const TOP_MARGIN: int := 6
  const BOTTOM_MARGIN: int := 10

  /** The three draws for one platform run: its length, its start column
      relative to the chunk start, and its row. */
  datatype PlatformDraw = PlatformDraw(length: int, offset: int, row: int)

  /** The draws lie in the ranges the generator's randint calls use:
      length in [4, 8], offset in [1, CHUNK_W - length - 1], row in [6, h - 10]. */
  predicate ValidPlatformDraw(d: PlatformDraw, h: int)
  {
    MIN_RUN <= d.length <= MAX_RUN &&
    1 <= d.offset <= CHUNK_W - d.length - 1 &&
    TOP_MARGIN <= d.row <= h - BOTTOM_MARGIN
  }

  predicate ValidPlatformDraws(ds: seq<PlatformDraw>, h: int)
  {
    |ds| == PLATFORMS_PER_CHUNK && forall k :: 0 <= k < |ds| ==> ValidPlatformDraw(ds[k], h)
  }

  /** The draw made for a column that has a platform surface: the chance test
      failed (Miss), or it passed and the spawned enemy faces `direction`. */
  datatype EnemyDraw = Miss | Hit(direction: int)

  predicate ValidEnemyDraws(ds: seq<EnemyDraw>)
  {
    |ds| >= CHUNK_W && forall k :: 0 <= k < |ds| && ds[k].Hit? ==> ds[k].direction in {-1, 1}
  }

  /** An enemy spawn: pixel position of the enemy's top-left corner and its facing. */
  datatype EnemySpawn = EnemySpawn(x: int, y: int, direction: int)

  /** An enemy spawned in grid column gx stands a quarter tile into the column ... */
  function SpawnX(gx: int): int { gx * TILE + TILE / 4 }

  /** ... with its top one tile above the surface cell in row gy. */
  function SpawnY(gy: int): int { (gy - 1) * TILE }

  /** Run d writes cell (c, r), c counted from the chunk start. */
  predicate Covers(d: PlatformDraw, c: int, r: int)
  {
    d.offset <= c < d.offset + d.length && r == d.row
  }

  /** Some run among ds writes cell (c, r); ds is taken in drawing order. */
  predicate Covered(ds: seq<PlatformDraw>, c: int, r: int)
    decreases |ds|
  {
    |ds| > 0 && (Covered(ds[..|ds| - 1], c, r) || Covers(ds[|ds| - 1], c, r))
  }

  /** The CHUNK_W columns of height h after stamping the runs ds into empty columns. */
  function ChunkColumns(h: nat, ds: seq<PlatformDraw>): (cols: Grid)
    ensures |cols| == CHUNK_W && Rectangular(cols, h)
  {
    seq(CHUNK_W, c => seq(h, r => if Covered(ds, c, r) then Solid else Empty))
  }

  /** A cell is covered by the stamped runs exactly when one of the runs writes it. */
  lemma {:induction false} CoveredIff(ds: seq<PlatformDraw>, c: int, r: int)
    ensures Covered(ds, c, r) <==> exists k :: 0 <= k < |ds| && Covers(ds[k], c, r)
    decreases |ds|
  {
    if |ds| > 0 {
      var init := ds[..|ds| - 1];
      CoveredIff(init, c, r);
      if Covered(init, c, r) {
        var k :| 0 <= k < |init| && Covers(init[k], c, r);
        assert ds[k] == init[k];
      }
      if exists k :: 0 <= k < |ds| && Covers(ds[k], c, r) {
        var k :| 0 <= k < |ds| && Covers(ds[k], c, r);
        if k < |ds| - 1 {
          assert init[k] == ds[k];
        }
      }
    }
  }

  /** Every write of a valid run lands in columns [1, CHUNK_W - 2] of the chunk and
      rows [6, h - 10]. */
  lemma CoveredInBand(ds: seq<PlatformDraw>, h: int, c: int, r: int)
    requires ValidPlatformDraws(ds, h)
    requires Covered(ds, c, r)
    ensures 1 <= c <= CHUNK_W - 2 && TOP_MARGIN <= r <= h - BOTTOM_MARGIN
  {
    CoveredIff(ds, c, r);
    var k :| 0 <= k < |ds| && Covers(ds[k], c, r);
    assert ValidPlatformDraw(ds[k], h);
  }

  /** The solid cells of a generated chunk are exactly the cells some run writes, and
      all of them lie inside the platform band: the chunk's first and last columns and
      the rows above 6 and below h - 10 stay empty. */
  lemma ChunkSolidCells(h: nat, ds: seq<PlatformDraw>, c: int, r: int)
    requires ValidPlatformDraws(ds, h)
    requires 0 <= c < CHUNK_W && 0 <= r < h
    ensures ChunkColumns(h, ds)[c][r] == Solid <==> exists k :: 0 <= k < |ds| && Covers(ds[k], c, r)
    ensures ChunkColumns(h, ds)[c][r] == Solid ==> 1 <= c <= CHUNK_W - 2 && TOP_MARGIN <= r <= h - BOTTOM_MARGIN
  {
    CoveredIff(ds, c, r);
    if Covered(ds, c, r) {
      CoveredInBand(ds, h, c, r);
    }
  }

  /** Overlapping runs simply rewrite solid cells: the chunk depends only on which runs
      were drawn, not on their order or on repetitions. */
  lemma ChunkIgnoresOrderAndRepeats(h: nat, ds: seq<PlatformDraw>, es: seq<PlatformDraw>)
    requires forall d :: d in ds <==> d in es
    ensures ChunkColumns(h, ds) == ChunkColumns(h, es)
  {
    forall c, r | 0 <= c < CHUNK_W && 0 <= r < h
      ensures ChunkColumns(h, ds)[c][r] == ChunkColumns(h, es)[c][r]
    {
      CoveredIff(ds, c, r);
      CoveredIff(es, c, r);
      if Covered(ds, c, r) {
        var k :| 0 <= k < |ds| && Covers(ds[k], c, r);
        assert ds[k] in es;
      }
      if Covered(es, c, r) {
        var k :| 0 <= k < |es| && Covers(es[k], c, r);
        assert es[k] in ds;
      }
    }
    forall c | 0 <= c < CHUNK_W ensures ChunkColumns(h, ds)[c] == ChunkColumns(h, es)[c] {
    }
  }

  /** The topmost solid cell of a column, if any. */
  function FirstSolid(col: seq<Cell>): (r: Option<nat>)
    ensures r.Some? ==> r.value < |col| && col[r.value] == Solid &&
                        forall gy :: 0 <= gy < r.value ==> col[gy] == Empty
    ensures r.None? ==> forall gy :: 0 <= gy < |col| ==> col[gy] == Empty
  {
    if col == [] then None
    else if col[0] == Solid then Some(0)
    else match FirstSolid(col[1..])
      case None =>
        assert col[0] == Empty;
        assert forall gy :: 0 <= gy < |col[1..]| ==> col[1..][gy] == Empty;
        forall gy | 1 <= gy < |col| ensures col[gy] == Empty {
          assert col[gy] == col[1..][gy - 1];
        }
        None
      case Some(k) => Some(k + 1)
  }

  /** Number of enemy draws the scan of cols consumes: one per column with a solid cell. */
  function Consumed(cols: Grid): (n: nat)
    ensures n <= |cols|
    decreases |cols|
  {
    if cols == [] then 0
    else Consumed(cols[..|cols| - 1]) + (if FirstSolid(cols[|cols| - 1]).Some? then 1 else 0)
  }

  /** Spawn e stands on the topmost solid cell of a column of cols (which begin at
      grid column sx): x is a quarter tile into the column, y one tile above the cell. */
  predicate OnSurface(cols: Grid, sx: int, e: EnemySpawn)
  {
    var c := e.x / TILE - sx;
    0 <= c < |cols| && e.x == (sx + c) * TILE + TILE / 4 &&
    FirstSolid(cols[c]).Some? && e.y == (FirstSolid(cols[c]).value - 1) * TILE
  }

  /** The enemy spawns found by scanning cols (grid columns sx, sx+1, ...) left to right:
      at the topmost solid cell of each column one enemy draw is consumed, and a Hit
      spawns an enemy there. */
  function Spawns(cols: Grid, sx: int, draws: seq<EnemyDraw>): (es: seq<EnemySpawn>)
    requires |cols| <= |draws|
    ensures |es| <= |cols|
    decreases |cols|
  {
    if cols == [] then []
    else
      var init := cols[..|cols| - 1];
      var before := Spawns(init, sx, draws);
      match FirstSolid(cols[|cols| - 1])
      case None => before
      case Some(gy) =>
        var d := draws[Consumed(init)];
        if d.Hit? then before + [EnemySpawn(SpawnX(sx + |cols| - 1), SpawnY(gy), d.direction)]
        else before
  }

  /** At most one spawn per column, each standing on the topmost solid cell of its
      column, in column order. */
  lemma {:induction false} SpawnsOnSurface(cols: Grid, sx: int, draws: seq<EnemyDraw>)
    requires |cols| <= |draws|
    ensures var es := Spawns(cols, sx, draws);
            |es| <= |cols| &&
            (forall i :: 0 <= i < |es| ==> OnSurface(cols, sx, es[i])) &&
            (forall i, j :: 0 <= i < j < |es| ==> es[i].x < es[j].x)
    decreases |cols|
  {
    if cols != [] {
      var init := cols[..|cols| - 1];
      SpawnsOnSurface(init, sx, draws);
      var before := Spawns(init, sx, draws);
      forall i | 0 <= i < |before| ensures OnSurface(cols, sx, before[i]) && before[i].x / TILE - sx < |cols| - 1 {
        assert OnSurface(init, sx, before[i]);
        assert cols[before[i].x / TILE - sx] == init[before[i].x / TILE - sx];
      }
      match FirstSolid(cols[|cols| - 1])
      case None =>
      case Some(gy) =>
        var d := draws[Consumed(init)];
        if d.Hit? {
          var e := EnemySpawn(SpawnX(sx + |cols| - 1), SpawnY(gy), d.direction);
          assert e.x / TILE - sx == |cols| - 1;
          assert Spawns(cols, sx, draws) == before + [e];
        }
    }
  }

  /** Number of Hit draws in ds. */
  function Hits(ds: seq<EnemyDraw>): (n: nat)
    ensures n <= |ds|
  {
    if ds == [] then 0 else Hits(ds[..|ds| - 1]) + (if ds[|ds| - 1].Hit? then 1 else 0)
  }

  /** The scan consumes the draws in order: it spawns one enemy per Hit among the
      first Consumed(cols) draws (SpawnAtColumn says which column each one belongs to). */
  lemma {:induction false} SpawnsCountHits(cols: Grid, sx: int, draws: seq<EnemyDraw>)
    requires |cols| <= |draws|
    ensures Consumed(cols) <= |draws|
    ensures |Spawns(cols, sx, draws)| == Hits(draws[..Consumed(cols)])
    decreases |cols|
  {
    if cols != [] {
      var init := cols[..|cols| - 1];
      SpawnsCountHits(init, sx, draws);
      var n := Consumed(init);
      if FirstSolid(cols[|cols| - 1]).Some? {
        assert draws[..n + 1][..n] == draws[..n];
      }
    }
  }

  /** The converse of SpawnsOnSurface: column c gets a spawn exactly when it has a solid
      cell and the draw the scan consumes there is a Hit, and that spawn faces the
      draw's direction. */
  lemma {:induction false} SpawnAtColumn(cols: Grid, sx: int, draws: seq<EnemyDraw>, c: int)
    requires |cols| <= |draws| && 0 <= c < |cols|
    ensures Consumed(cols[..c]) < |draws|
    ensures var es := Spawns(cols, sx, draws);
            var d := draws[Consumed(cols[..c])];
            ((exists i :: 0 <= i < |es| && es[i].x / TILE == sx + c) <==> FirstSolid(cols[c]).Some? && d.Hit?) &&
            (forall i :: 0 <= i < |es| && es[i].x / TILE == sx + c ==> es[i].direction == d.direction)
    decreases |cols|
  {
    var init := cols[..|cols| - 1];
    assert Consumed(cols[..c]) <= c by {
      assert |cols[..c]| == c;
    }
    SpawnsOnSurface(init, sx, draws);
    var before := Spawns(init, sx, draws);
    var es := Spawns(cols, sx, draws);
    forall i | 0 <= i < |before| ensures before[i].x / TILE - sx < |cols| - 1 {
      assert OnSurface(init, sx, before[i]);
    }
    var extra := es[|before|..];
    assert es == before + extra;
    assert forall i :: 0 <= i < |extra| ==> extra[i].x / TILE == sx + |cols| - 1 && extra[i].direction == draws[Consumed(init)].direction
    by {
      match FirstSolid(cols[|cols| - 1])
      case None =>
      case Some(gy) =>
        assert SpawnX(sx + |cols| - 1) / TILE == sx + |cols| - 1;
    }
    assert |extra| > 0 <==> FirstSolid(cols[|cols| - 1]).Some? && draws[Consumed(init)].Hit?;
    if c < |cols| - 1 {
      SpawnAtColumn(init, sx, draws, c);
      assert init[..c] == cols[..c] && init[c] == cols[c];
      forall i | 0 <= i < |es| && es[i].x / TILE == sx + c ensures i < |before| && es[i] == before[i] {
      }
    } else {
      assert cols[..c] == init;
      forall i | 0 <= i < |es| && es[i].x / TILE == sx + c ensures i >= |before| && es[i] == extra[i - |before|] {
      }
      if |extra| > 0 {
        assert es[|before|] == extra[0];
      }
    }
  }

  /** A chunk whose enemy draws are all misses spawns nothing. */
  lemma {:induction false} AllMissesSpawnNothing(cols: Grid, sx: int, draws: seq<EnemyDraw>)
    requires |cols| <= |draws|
    requires forall k :: 0 <= k < |draws| ==> draws[k] == Miss
    ensures Spawns(cols, sx, draws) == []
    decreases |cols|
  {
    if cols != [] {
      AllMissesSpawnNothing(cols[..|cols| - 1], sx, draws);
    }
  }
}
