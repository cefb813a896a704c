/** The level: a grid of columns that grows to the right one chunk at a time,
    the enemy spawns of the last chunk generated, and the player's start point. */
module Levels {
  import opened Tiles
  import opened Chunks

  /** A chunk is generated once the asked-for column is within this many columns of
      the generated width. */
  const LOOKAHEAD: int := 40
  /** The player is TILE wide and int(TILE * 1.5) tall. */
  const PLAYER_H: int := 48

  /** The search window of the start point: rows [6, 26) outer, columns [3, min(60, n)) inner. */
  const SPAWN_ROW_LO: int := 6
  const SPAWN_ROW_HI: int := 26
  const SPAWN_COL_LO: int := 3
  const SPAWN_COL_HI: int := 60

  /** Where the player starts when the window holds no platform surface. */
  const FALLBACK_SPAWN: (int, int) := (TILE, TILE * 5)

  /** Every solid cell of a grid built from chunks lies in the interior columns of its
      chunk and in the platform rows. */
  predicate InBand(gx: int, gy: int, h: int)
  {
    1 <= gx % CHUNK_W <= CHUNK_W - 2 && TOP_MARGIN <= gy <= h - BOTTOM_MARGIN
  }

  predicate SolidInBand(tiles: Grid, h: int)
    requires Rectangular(tiles, h)
  {
    forall gx, gy :: 0 <= gx < |tiles| && 0 <= gy < h && tiles[gx][gy] == Solid ==> InBand(gx, gy, h)
  }

  /** A platform surface: a solid cell with an empty cell directly above it. */
  predicate IsSurface(tiles: Grid, x: int, y: int)
    requires 0 <= x < |tiles| && 1 <= y < |tiles[x]|
  {
    tiles[x][y] == Solid && tiles[x][y - 1] == Empty
  }

  predicate SpawnWindow(tiles: Grid, x: int, y: int)
  {
    SPAWN_ROW_LO <= y < SPAWN_ROW_HI && SPAWN_COL_LO <= x < Min(SPAWN_COL_HI, |tiles|)
  }

  /** (x, y) comes before (x', y') when rows are searched first: row-major order. */
  predicate RowMajorBefore(x: int, y: int, x': int, y': int)
  {
    y < y' || (y == y' && x < x')
  }

  /** The leftmost surface in row y among columns [3, x1). */
  function FirstSurfaceInRow(tiles: Grid, h: int, y: int, x1: int): (r: Option<int>)
    requires Rectangular(tiles, h) && SPAWN_ROW_HI <= h
    requires SPAWN_ROW_LO <= y < SPAWN_ROW_HI && (x1 <= |tiles| || x1 <= SPAWN_COL_LO)
    ensures r.Some? ==> SPAWN_COL_LO <= r.value < x1 && IsSurface(tiles, r.value, y) &&
                        forall x :: SPAWN_COL_LO <= x < r.value ==> !IsSurface(tiles, x, y)
    ensures r.None? ==> forall x :: SPAWN_COL_LO <= x < x1 ==> !IsSurface(tiles, x, y)
    decreases x1
  {
    if x1 <= SPAWN_COL_LO then None
    else match FirstSurfaceInRow(tiles, h, y, x1 - 1)
      case Some(x) => Some(x)
      case None => if IsSurface(tiles, x1 - 1, y) then Some(x1 - 1) else None
  }

  /** The first surface of the start-point window in row-major order, among rows [6, y1). */
  function FirstSurface(tiles: Grid, h: int, y1: int): (r: Option<(int, int)>)
    requires Rectangular(tiles, h) && SPAWN_ROW_HI <= h && y1 <= SPAWN_ROW_HI
    ensures r.Some? ==> SpawnWindow(tiles, r.value.0, r.value.1) && r.value.1 < y1 &&
                        IsSurface(tiles, r.value.0, r.value.1) &&
                        forall x, y :: SpawnWindow(tiles, x, y) && RowMajorBefore(x, y, r.value.0, r.value.1) ==>
                                         !IsSurface(tiles, x, y)
    ensures r.None? ==> forall x, y :: SpawnWindow(tiles, x, y) && y < y1 ==> !IsSurface(tiles, x, y)
    decreases y1
  {
    if y1 <= SPAWN_ROW_LO then None
    else match FirstSurface(tiles, h, y1 - 1)
      case Some(t) => Some(t)
      case None =>
        match FirstSurfaceInRow(tiles, h, y1 - 1, Min(SPAWN_COL_HI, |tiles|))
        case Some(x) => Some((x, y1 - 1))
        case None => None
  }

  /** The player's start point: over the first surface of the window, placed so that a
      player of height 48 stands on it; otherwise the fallback point. */
  function SpawnPoint(tiles: Grid, h: int): (p: (int, int))
    requires Rectangular(tiles, h) && SPAWN_ROW_HI <= h
    ensures p == FALLBACK_SPAWN ||
            (SPAWN_COL_LO * TILE <= p.0 < SPAWN_COL_HI * TILE &&
             SPAWN_ROW_LO * TILE - PLAYER_H <= p.1 < SPAWN_ROW_HI * TILE - PLAYER_H)
  {
    match FirstSurface(tiles, h, SPAWN_ROW_HI)
    case Some((x, y)) => (x * TILE, y * TILE - PLAYER_H)
    case None => FALLBACK_SPAWN
  }

  /** The start point is the fallback exactly when the window holds no surface; otherwise
      it is tile-aligned, and a player of height 48 placed there has its bottom edge on the
      top edge of a surface cell of the window. */
  lemma SpawnStandsOnSurface(tiles: Grid, h: int)
    requires Rectangular(tiles, h) && SPAWN_ROW_HI <= h
    ensures var p := SpawnPoint(tiles, h);
            p != FALLBACK_SPAWN ==>
              var x, y := p.0 / TILE, (p.1 + PLAYER_H) / TILE;
              p.0 == x * TILE && p.1 + PLAYER_H == y * TILE && SpawnWindow(tiles, x, y) && IsSurface(tiles, x, y)
    ensures SpawnPoint(tiles, h) == FALLBACK_SPAWN <==>
              forall x, y :: SpawnWindow(tiles, x, y) ==> !IsSurface(tiles, x, y)
  {
    match FirstSurface(tiles, h, SPAWN_ROW_HI)
    case Some((x, y)) =>
      assert (x * TILE) / TILE == x;
      assert (y * TILE - PLAYER_H + PLAYER_H) / TILE == y;
    case None =>
  }

  /** The row-major search stops at the first surface it meets. */
  lemma SearchStopsAt(tiles: Grid, h: int, x: int, y: int)
    requires Rectangular(tiles, h) && SPAWN_ROW_HI <= h && SpawnWindow(tiles, x, y)
    requires FirstSurface(tiles, h, y) == None && FirstSurfaceInRow(tiles, h, y, x) == None
    requires tiles[x][y] == Solid && tiles[x][y - 1] == Empty
    ensures SpawnPoint(tiles, h) == (x * TILE, y * TILE - PLAYER_H)
  {
    assert IsSurface(tiles, x, y);
    var r := FirstSurface(tiles, h, SPAWN_ROW_HI);
    assert r.Some?;
    var (x', y') := r.value;
    assert !RowMajorBefore(x', y', x, y);
    assert !RowMajorBefore(x, y, x', y');
  }

  /** A search that went through every row of the window found nothing. */
  lemma SearchExhausted(tiles: Grid, h: int, y: int)
    requires Rectangular(tiles, h) && SPAWN_ROW_HI <= h && y == SPAWN_ROW_HI
    requires FirstSurface(tiles, h, y) == None
    ensures SpawnPoint(tiles, h) == FALLBACK_SPAWN
  {
  }

  class Level {
    const hTiles: int
    var tiles: Grid
    var lastX: int
    var enemiesBuffer: seq<EnemySpawn>
    var spawn: (int, int)

    /** The grid is rectangular, made of whole chunks whose count lastX records, and
        every solid cell sits inside the platform band of its chunk. */
    ghost predicate Valid()
      reads this
    {
      SPAWN_ROW_HI <= hTiles && lastX == |tiles| && lastX % CHUNK_W == 0 &&
      Rectangular(tiles, hTiles) && SolidInBand(tiles, hTiles)
    }

    /** A new level of hTiles rows: one chunk generated, then the start point chosen. */
    constructor (hTiles: int, draws: seq<PlatformDraw>, enemyDraws: seq<EnemyDraw>)
      requires SPAWN_ROW_HI <= hTiles
      requires ValidPlatformDraws(draws, hTiles) && ValidEnemyDraws(enemyDraws)
      ensures Valid() && this.hTiles == hTiles
      ensures tiles == ChunkColumns(hTiles, draws) && lastX == CHUNK_W
      ensures enemiesBuffer == Spawns(ChunkColumns(hTiles, draws), 0, enemyDraws)
      ensures spawn == SpawnPoint(tiles, hTiles)
    {
      this.hTiles := hTiles;
      tiles := [];
      lastX := 0;
      enemiesBuffer := [];
      spawn := FALLBACK_SPAWN;
      new;
      GenChunk(draws, enemyDraws);
      assert tiles == ChunkColumns(hTiles, draws);
      PlaceSpawn();
    }

    /** The level's solidity query. */
    function IsSolid(gx: int, gy: int): (b: bool)
      reads this
      requires Valid()
      ensures b <==> 0 <= gx < |tiles| && 0 <= gy < hTiles && tiles[gx][gy] == Solid
    {
      SolidAt(tiles, hTiles, gx, gy)
    }

    /** Appends one chunk: CHUNK_W empty columns, the platform runs of draws stamped
        into them, then a top-down scan of each new column that consumes one enemy draw
        at its first solid cell. The buffer is replaced by this chunk's spawns. */
    method GenChunk(draws: seq<PlatformDraw>, enemyDraws: seq<EnemyDraw>)
      requires Valid() && ValidPlatformDraws(draws, hTiles) && ValidEnemyDraws(enemyDraws)
      modifies this
      ensures Valid()
      ensures tiles == old(tiles) + ChunkColumns(hTiles, draws)
      ensures lastX == old(lastX) + CHUNK_W
      ensures enemiesBuffer == Spawns(ChunkColumns(hTiles, draws), old(lastX), enemyDraws)
      ensures spawn == old(spawn)
    {
      var sx := lastX;
      var t := AppendEmptyColumns(tiles, hTiles);
      t := StampPlatforms(t, hTiles, sx, draws);
      assert t[sx..] == ChunkColumns(hTiles, draws);
      ChunkTopEmpty(hTiles, draws);
      var buf := ScanForEnemies(t, sx, enemyDraws);
      tiles := t;
      enemiesBuffer := buf;
      lastX := lastX + CHUNK_W;
      ChunkStaysInBand(old(tiles), hTiles, draws);
    }

    /** Generates one chunk when xTiles is past lastX - LOOKAHEAD and returns its spawns;
        otherwise returns no spawns and changes nothing. */
    method EnsureWidth(xTiles: int, draws: seq<PlatformDraw>, enemyDraws: seq<EnemyDraw>)
      returns (spawned: seq<EnemySpawn>)
      requires Valid() && ValidPlatformDraws(draws, hTiles) && ValidEnemyDraws(enemyDraws)
      modifies this
      ensures Valid() && spawn == old(spawn)
      ensures xTiles > old(lastX) - LOOKAHEAD ==>
                tiles == old(tiles) + ChunkColumns(hTiles, draws) && lastX == old(lastX) + CHUNK_W &&
                spawned == enemiesBuffer == Spawns(ChunkColumns(hTiles, draws), old(lastX), enemyDraws)
      ensures xTiles <= old(lastX) - LOOKAHEAD ==>
                spawned == [] && tiles == old(tiles) && lastX == old(lastX) &&
                enemiesBuffer == old(enemiesBuffer)
    {
      if xTiles > lastX - LOOKAHEAD {
        GenChunk(draws, enemyDraws);
        return enemiesBuffer;
      }
      return [];
    }

    /** Chooses the start point: the first surface of the window in row-major order. */
    method PlaceSpawn()
      requires Valid()
      modifies this`spawn
      ensures spawn == SpawnPoint(tiles, hTiles)
    {
      spawn := SearchStart(tiles, hTiles);
    }
  }

  /** The search loops of the start point: rows outer, columns inner, returning at the
      first surface, else the fallback. */
  method SearchStart(t: Grid, h: int) returns (p: (int, int))
    requires Rectangular(t, h) && SPAWN_ROW_HI <= h
    ensures p == SpawnPoint(t, h)
  {
    var xHi := Min(SPAWN_COL_HI, |t|);
    var y := SPAWN_ROW_LO;
    while y < SPAWN_ROW_HI
      invariant SPAWN_ROW_LO <= y <= SPAWN_ROW_HI
      invariant FirstSurface(t, h, y) == None
    {
      var x := SPAWN_COL_LO;
      while x < xHi
        invariant SPAWN_COL_LO <= x
        invariant x <= xHi || x == SPAWN_COL_LO
        invariant FirstSurfaceInRow(t, h, y, x) == None
      {
        if t[x][y] == Solid && t[x][y - 1] == Empty {
          SearchStopsAt(t, h, x, y);
          return (x * TILE, y * TILE - PLAYER_H);
        }
        x := x + 1;
      }
      y := y + 1;
    }
    SearchExhausted(t, h, y);
    return FALLBACK_SPAWN;
  }

  /** The first step of chunk generation: CHUNK_W columns of h empty cells appended. */
  method AppendEmptyColumns(tiles: Grid, h: nat) returns (t: Grid)
    ensures t == tiles + seq(CHUNK_W, _ => EmptyColumn(h))
  {
    t := tiles;
    var n := 0;
    while n < CHUNK_W
      invariant 0 <= n <= CHUNK_W
      invariant t == tiles + seq(n, _ => EmptyColumn(h))
    {
      t := t + [EmptyColumn(h)];
      n := n + 1;
    }
  }

  /** The second step: each run of draws, in order, writes Solid into its row over
      `length` columns starting at column sx + offset. */
  method StampPlatforms(tiles: Grid, h: nat, sx: nat, draws: seq<PlatformDraw>) returns (t: Grid)
    requires |tiles| == sx + CHUNK_W && Rectangular(tiles, h)
    requires forall gx :: sx <= gx < |tiles| ==> tiles[gx] == EmptyColumn(h)
    requires ValidPlatformDraws(draws, h)
    ensures t == tiles[..sx] + ChunkColumns(h, draws)
  {
    t := tiles;
    var k := 0;
    while k < PLATFORMS_PER_CHUNK
      invariant 0 <= k <= PLATFORMS_PER_CHUNK
      invariant |t| == sx + CHUNK_W && t[..sx] == tiles[..sx]
      invariant forall gx :: sx <= gx < |t| ==> |t[gx]| == h
      invariant forall gx, gy :: sx <= gx < |t| && 0 <= gy < h ==>
                  (t[gx][gy] == Solid <==> Covered(draws[..k], gx - sx, gy))
    {
      var d := draws[k];
      assert ValidPlatformDraw(d, h);
      var gx := sx + d.offset;
      var i := 0;
      while i < d.length
        invariant 0 <= i <= d.length
        invariant |t| == sx + CHUNK_W && t[..sx] == tiles[..sx]
        invariant forall c :: sx <= c < |t| ==> |t[c]| == h
        invariant forall c, gy :: sx <= c < |t| && 0 <= gy < h ==>
                    (t[c][gy] == Solid <==> Covered(draws[..k], c - sx, gy) || (gy == d.row && gx <= c < gx + i))
      {
        t := t[gx + i := t[gx + i][d.row := Solid]];
        i := i + 1;
      }
      assert draws[..k + 1][..k] == draws[..k];
      k := k + 1;
    }
    assert draws[..PLATFORMS_PER_CHUNK] == draws;
    var chunk := ChunkColumns(h, draws);
    forall gx | sx <= gx < |t| ensures t[gx] == chunk[gx - sx] {
    }
  }

  /** The third step: each new column is scanned top-down; at its first cell that is
      solid with an empty cell above, one enemy draw is consumed and a Hit adds a spawn
      a quarter tile into the column and one tile above the cell; the scan of that
      column stops there. */
  method ScanForEnemies(tiles: Grid, sx: nat, enemyDraws: seq<EnemyDraw>) returns (buf: seq<EnemySpawn>)
    requires sx <= |tiles| && |tiles| - sx <= |enemyDraws|
    requires forall gx :: sx <= gx < |tiles| ==> tiles[gx] == [] || tiles[gx][0] == Empty
    ensures buf == Spawns(tiles[sx..], sx, enemyDraws)
  {
    ghost var cols := tiles[sx..];
    buf := [];
    var used := 0;
    var gx := sx;
    while gx < |tiles|
      invariant sx <= gx <= |tiles|
      invariant used == Consumed(cols[..gx - sx])
      invariant buf == Spawns(cols[..gx - sx], sx, enemyDraws)
    {
      assert tiles[gx] == cols[gx - sx];
      used, buf := ScanColumn(cols, sx, enemyDraws, gx - sx, tiles[gx], used, buf);
      gx := gx + 1;
    }
    assert cols[..|tiles| - sx] == cols;
  }

  /** One pass of the scan loop: column c of cols (grid column sx + c) is scanned
      top-down, and at its surface one draw is used and a Hit appends a spawn. */
  method ScanColumn(ghost cols: Grid, sx: nat, enemyDraws: seq<EnemyDraw>, c: nat, col: seq<Cell>,
                    used: nat, buf: seq<EnemySpawn>)
    returns (used': nat, buf': seq<EnemySpawn>)
    requires c < |cols| <= |enemyDraws| && col == cols[c] && (col == [] || col[0] == Empty)
    requires used == Consumed(cols[..c]) && buf == Spawns(cols[..c], sx, enemyDraws)
    ensures used' == Consumed(cols[..c + 1]) && buf' == Spawns(cols[..c + 1], sx, enemyDraws)
  {
    ScanStep(cols, sx, enemyDraws, c);
    used', buf' := used, buf;
    var top := TopSurface(col);
    if top.Some? {
      if enemyDraws[used].Hit? {
        buf' := buf + [EnemySpawn(SpawnX(sx + c), SpawnY(top.value), enemyDraws[used].direction)];
      }
      used' := used + 1;
    }
  }

  /** The top row of a generated chunk is empty. */
  lemma ChunkTopEmpty(h: nat, draws: seq<PlatformDraw>)
    requires TOP_MARGIN + BOTTOM_MARGIN <= h && ValidPlatformDraws(draws, h)
    ensures forall c :: 0 <= c < CHUNK_W ==> ChunkColumns(h, draws)[c][0] == Empty
  {
    forall c | 0 <= c < CHUNK_W ensures ChunkColumns(h, draws)[c][0] == Empty {
      if ChunkColumns(h, draws)[c][0] == Solid {
        ChunkSolidCells(h, draws, c, 0);
      }
    }
  }

  /** Scanning one more column extends the draw count and the spawn list by that column's
      contribution. */
  lemma ScanStep(cols: Grid, sx: int, draws: seq<EnemyDraw>, c: int)
    requires 0 <= c < |cols| <= |draws|
    ensures Consumed(cols[..c + 1]) == Consumed(cols[..c]) + (if FirstSolid(cols[c]).Some? then 1 else 0)
    ensures Spawns(cols[..c + 1], sx, draws) ==
              match FirstSolid(cols[c])
              case None => Spawns(cols[..c], sx, draws)
              case Some(gy) =>
                var d := draws[Consumed(cols[..c])];
                if d.Hit? then Spawns(cols[..c], sx, draws) + [EnemySpawn(SpawnX(sx + c), SpawnY(gy), d.direction)]
                else Spawns(cols[..c], sx, draws)
  {
    assert cols[..c + 1][..c] == cols[..c];
    assert cols[..c + 1][c] == cols[c];
  }

  /** The scan of one column, top-down: it stops at the first cell that is solid with an
      empty cell above; when the top cell is empty, that is the topmost solid cell. */
  method TopSurface(col: seq<Cell>) returns (top: Option<nat>)
    requires col == [] || col[0] == Empty
    ensures top == FirstSolid(col)
  {
    var gy := 0;
    while gy < |col|
      invariant 0 <= gy <= |col|
      invariant forall y :: 0 <= y < gy ==> col[y] == Empty
    {
      if col[gy] == Solid && col[gy - 1] == Empty {
        return Some(gy);
      }
      gy := gy + 1;
    }
    return None;
  }

  /** Appending a generated chunk to a grid of whole chunks keeps every solid cell inside
      the platform band of its chunk. */
  lemma ChunkStaysInBand(prefix: Grid, h: nat, draws: seq<PlatformDraw>)
    requires Rectangular(prefix, h) && SolidInBand(prefix, h) && |prefix| % CHUNK_W == 0
    requires ValidPlatformDraws(draws, h)
    ensures Rectangular(prefix + ChunkColumns(h, draws), h)
    ensures SolidInBand(prefix + ChunkColumns(h, draws), h)
  {
    var g := prefix + ChunkColumns(h, draws);
    var sx := |prefix|;
    forall x, y | 0 <= x < |g| && 0 <= y < h && g[x][y] == Solid
      ensures InBand(x, y, h)
    {
      if x >= sx {
        assert g[x] == ChunkColumns(h, draws)[x - sx];
        ChunkSolidCells(h, draws, x - sx, y);
        assert x % CHUNK_W == x - sx;
      } else {
        assert g[x] == prefix[x];
      }
    }
  }

  /** Solidity over a grid that grew by a chunk: old columns answer as before, the new
      columns answer with the chunk's runs, and everything further right is empty. */
  lemma SolidAfterChunk(prefix: Grid, h: nat, draws: seq<PlatformDraw>, gx: int, gy: int)
    requires Rectangular(prefix, h) && ValidPlatformDraws(draws, h)
    ensures Rectangular(prefix + ChunkColumns(h, draws), h)
    ensures 0 <= gx < |prefix| ==>
              SolidAt(prefix + ChunkColumns(h, draws), h, gx, gy) == SolidAt(prefix, h, gx, gy)
    ensures |prefix| <= gx < |prefix| + CHUNK_W ==>
              (SolidAt(prefix + ChunkColumns(h, draws), h, gx, gy) <==>
                 0 <= gy < h && exists k :: 0 <= k < |draws| && Covers(draws[k], gx - |prefix|, gy))
    ensures gx == |prefix| || gx == |prefix| + CHUNK_W - 1 ==> !SolidAt(prefix + ChunkColumns(h, draws), h, gx, gy)
    ensures gx >= |prefix| + CHUNK_W ==> !SolidAt(prefix + ChunkColumns(h, draws), h, gx, gy)
  {
    var g := prefix + ChunkColumns(h, draws);
    if |prefix| <= gx < |prefix| + CHUNK_W && 0 <= gy < h {
      assert g[gx] == ChunkColumns(h, draws)[gx - |prefix|];
      ChunkSolidCells(h, draws, gx - |prefix|, gy);
    }
    if 0 <= gx < |prefix| {
      assert g[gx] == prefix[gx];
    }
  }
}
