# Tile-world core of the metroidvania side-scroller

A Dafny model of the integer tile-world logic of `metroidvania.py`, a pygame
side-scroller with an endless level that is generated on demand.

- **Tiles** (`tiles.dfy`). The level is a list of columns of cells, each empty or
  solid. Pixel rectangles follow pygame's `Rect`. The module holds the
  bounds-checked solidity query, the pixel square of a tile (`rect_from_grid`)
  and the span of tiles a rectangle overlaps (`tiles_from_rect`).
- **Chunks** (`chunks.dfy`). What one call of the chunk generator produces,
  stated as values: `CHUNK_W` new columns carrying 42 random platform runs, and
  the enemy spawns found by scanning each new column top-down. Randomness is
  injected as sequences of draws. Each draw's range is the range of the
  corresponding `randint`.
- **Levels** (`levels.dfy`). The `Level` class holds the grid, `last_x`, the
  enemy buffer and the player start point. Its methods are:
  - chunk generation (`_gen_chunk`): three loops, each proved against the chunk
    functions;
  - `ensure_width`;
  - the start-point search (`_spawn`);
  - `is_solid`.
- **Collision** (`collision.dfy`). A value-level specification of
  `Entity.collide_level`. A horizontal pass is followed by a vertical pass. In
  each pass the first solid tile in column-major order decides the clamp. The
  module has lemmas for the miss, hit, ground-contact and resting cases.
- **Entities** (`entities.dfy`). The `Entity` class: its `CollideLevel` loops are
  proved equal to the collision specification. The `Enemy` class: edge-probe
  patrol. The `Player` class: ammunition and reload state.
- **Game** (`game.dfy`). The pure rules of the main loop:
  - the camera clamp;
  - the contact-damage loop against enemies;
  - the loading / playing / game-over phases.

Python's `//` by `TILE` (32) is Dafny's `/`, because the divisor is positive.

## Model

| member | source | states |
|---|---|---|
| Tiles.SolidAt | metroidvania.py:186-187 | the query is total: false off the grid in either coordinate; on the grid, true exactly for a solid cell |
| Tiles.RectFromGrid | metroidvania.py:86-87 | the definition of a tile's pixel square, (x*TILE, y*TILE, TILE, TILE); its contract: TILE by TILE, inside column x and row y |
| Tiles.GridRoundTrip | metroidvania.py:86-92 | a tile's square is TILE by TILE, and the tiles it overlaps are exactly that one tile (rect_from_grid then tiles_from_rect is the identity) |
| Tiles.PixelInItsTile | metroidvania.py:86-87 | every pixel lies inside the square of the tile given by its floor quotients |
| Tiles.TilesFromRect | metroidvania.py:90-92 | the column and row ranges hold exactly the tiles whose square shares pixels with the rectangle; they are non-empty for a rectangle of positive size |
| Tiles.FloorRange | metroidvania.py:90-92 | tile g is in lo//TILE..(hi-1)//TILE exactly when its pixels meet [lo, hi) |
| Tiles.EmptyColumn | metroidvania.py:160 | a new column holds h_tiles empty cells |
| Chunks.ChunkColumns | metroidvania.py:160-165 | a chunk is CHUNK_W columns of exactly h_tiles cells |
| Chunks.CoveredIff | metroidvania.py:161-165 | a cell is solid after stamping exactly when some drawn run writes it |
| Chunks.CoveredInBand | metroidvania.py:162-165 | every write of a run drawn in the randint ranges lands in chunk columns [1, CHUNK_W-2] and rows [6, h_tiles-10] |
| Chunks.ChunkSolidCells | metroidvania.py:160-165 | a chunk cell is solid iff some run covers it; solid cells lie in the band, so the chunk's first and last columns stay empty |
| Chunks.ChunkIgnoresOrderAndRepeats | metroidvania.py:165 | overlapping runs only re-write solid: the chunk depends only on the set of runs drawn |
| Chunks.FirstSolid | metroidvania.py:168-169 | the top-down scan finds the topmost solid cell, and every cell above it is empty |
| Chunks.Consumed | metroidvania.py:167-172 | the scan uses at most one enemy draw per column |
| Chunks.Spawns | metroidvania.py:166-172 | the definition of the enemy scan: columns left to right, at the topmost solid cell one draw is used and a Hit appends a spawn at (gx*TILE+TILE//4, (gy-1)*TILE); its contract: no more spawns than columns (one per column, by the strictly increasing x of SpawnsOnSurface) |
| Chunks.SpawnsOnSurface | metroidvania.py:166-173 | at most one spawn per column; each spawn is at (gx*TILE+TILE//4, (gy-1)*TILE) over the topmost solid cell gy of its column; spawns are in column order |
| Chunks.Hits | metroidvania.py:170 | the number of successful chance tests is at most the number of draws |
| Chunks.SpawnsCountHits | metroidvania.py:166-172 | the scan spawns exactly one enemy per successful chance test among the draws it consumes |
| Chunks.SpawnAtColumn | metroidvania.py:166-172 | a column gets a spawn exactly when it has a solid cell and the draw consumed there is a Hit; the spawn faces that draw's direction |
| Chunks.AllMissesSpawnNothing | metroidvania.py:170-171 | when no chance test succeeds, the chunk spawns no enemy |
| Levels.FirstSurfaceInRow | metroidvania.py:181-182 | the leftmost surface cell of one row of the start-point window, and none before it |
| Levels.FirstSurface | metroidvania.py:180-182 | the first surface of the window in row-major order, and none before it |
| Levels.SpawnPoint | metroidvania.py:179-184 | the definition of the start point: (x*TILE, y*TILE-48) over the first surface of the window, else (TILE, 5*TILE); its contract: the fallback, or a point over the window |
| Levels.SpawnStandsOnSurface | metroidvania.py:179-184 | the fallback (TILE, 5*TILE) is chosen exactly when the window has no surface; otherwise the start point is tile-aligned, and a 48-pixel-tall player placed there stands on a surface cell of the window |
| Levels.SearchStopsAt | metroidvania.py:182-183 | the search stops at the first surface it meets, with the start point over it |
| Levels.SearchExhausted | metroidvania.py:184 | a search through every row without a surface yields the fallback |
| Levels.Level.constructor | metroidvania.py:154-156 | a new level is one generated chunk with last_x = CHUNK_W, that chunk's spawns in the buffer, and the start point chosen from it |
| Levels.Level.IsSolid | metroidvania.py:186-187 | true exactly for an in-bounds solid cell |
| Levels.Level.GenChunk | metroidvania.py:158-173 | appends exactly the generated chunk and leaves earlier columns untouched; advances last_x by CHUNK_W; replaces the buffer with this chunk's spawns; keeps last_x == len(tiles) and every solid cell inside the platform band |
| Levels.Level.EnsureWidth | metroidvania.py:175-177 | when x > last_x - 40, generates exactly one chunk and returns its spawns; otherwise returns nothing and leaves tiles, last_x and the buffer unchanged |
| Levels.Level.PlaceSpawn | metroidvania.py:179-184 | the start point becomes the result of the search, and nothing else changes |
| Levels.SearchStart | metroidvania.py:180-184 | the nested search loops with early return compute the start point |
| Levels.AppendEmptyColumns | metroidvania.py:160 | the loop appends CHUNK_W empty columns |
| Levels.StampPlatforms | metroidvania.py:161-165 | the stamping loops turn the empty chunk into the chunk whose solid cells are those covered by the runs, and leave earlier columns untouched |
| Levels.ScanForEnemies | metroidvania.py:166-172 | the scan loop over the new columns yields the chunk's spawn list, consuming one draw per column with a surface |
| Levels.ScanColumn | metroidvania.py:167-172 | one pass of the scan loop extends the draw count and the spawn list from the earlier columns to this one |
| Levels.TopSurface | metroidvania.py:168-172 | the top-down scan of one column, with its break, stops at the topmost solid cell; with an empty top row, the read of the cell above never leaves the column |
| Levels.ChunkTopEmpty | metroidvania.py:164 | row 0 of every column of a generated chunk is empty |
| Levels.ScanStep | metroidvania.py:167-172 | scanning one more column adds at most one consumed draw and at most one spawn, at that column's topmost solid cell |
| Levels.ChunkStaysInBand | metroidvania.py:158-173 | a grid of whole chunks stays rectangular, and its solid cells stay in their chunks' bands, after a chunk is appended |
| Levels.SolidAfterChunk | metroidvania.py:160-165 | after growth, old columns answer as before; new columns are solid exactly where a run writes; the chunk's edge columns and every column further right are empty |
| Collision.FirstSolidInColumn | metroidvania.py:105-106 | the topmost solid tile of a column among the overlapped rows, with none above it |
| Collision.FirstSolidTile | metroidvania.py:104-106 | the first solid tile in column-major order among the overlapped tiles, with none before it; none when all are empty |
| Collision.RowStep | metroidvania.py:106-107 | scanning one more row of a column finds the earlier hit, or this row's tile when it is solid |
| Collision.ColumnStep | metroidvania.py:105-106 | scanning one more column finds the earlier hit, or this column's first solid tile |
| Collision.ClampX | metroidvania.py:107-111 | the definition of one horizontal clamp by the hit tile: moving right puts right on the tile's left, moving left puts left on its right, and vel.x becomes 0 (its properties: ClampKeepsShape) |
| Collision.ClampY | metroidvania.py:117-122 | the definition of one vertical clamp by the hit tile: moving down puts bottom on the tile's top and reports ground, moving up puts top on its bottom, and vel.y becomes 0 (its properties: ClampKeepsShape) |
| Collision.HorizontalPass | metroidvania.py:103-111 | the definition of the x pass: x += vel.x, then the clamp by the first solid overlapped tile (its properties: HorizontalKeepsShape, HorizontalMiss, HorizontalHit) |
| Collision.VerticalPass | metroidvania.py:112-122 | the definition of the y pass: y += vel.y, then the clamp by the first solid overlapped tile (its properties: VerticalKeepsShape, VerticalMiss, VerticalHit, OnGroundIff) |
| Collision.Collide | metroidvania.py:102-122 | the definition of collide_level: the x pass, then the y pass on its result (its properties: CollideKeepsShape, RestingStaysGrounded) |
| Collision.ClampKeepsShape | metroidvania.py:107-122 | a clamp moves the rectangle along its own axis only, and only on a hit while moving; a hit zeroes that axis's velocity; ground is reported iff there is a hit while falling |
| Collision.HorizontalKeepsShape | metroidvania.py:103-111 | the x pass keeps the row, the size and vel.y, and either keeps or zeroes vel.x |
| Collision.VerticalKeepsShape | metroidvania.py:112-122 | the y pass keeps the column, the size and vel.x, and reports ground only for a falling body, whose vel.y is then 0 |
| Collision.CollideKeepsShape | metroidvania.py:102-122 | a frame keeps the body's size, keeps or zeroes vel.x, and reports ground only for a falling body, whose vel.y is then 0 |
| Collision.FirstHitIsFirstOverlap | metroidvania.py:103-106 | the hit is none exactly when no overlapped tile is solid; otherwise it is exactly the first solid overlapped tile |
| Collision.HorizontalMiss | metroidvania.py:102-111 | with no solid tile overlapped after the move, only x changes |
| Collision.HorizontalHit | metroidvania.py:102-111 | on a hit, vel.x becomes 0; the first solid tile puts right on its left edge (moving right) or left on its right edge (moving left) |
| Collision.VerticalMiss | metroidvania.py:112-122 | with no solid tile overlapped after the move, only y changes, and the result is not on ground |
| Collision.VerticalHit | metroidvania.py:112-122 | on a hit, vel.y becomes 0; moving down lands bottom on the first tile's top and reports ground; moving up puts top on its bottom |
| Collision.OnGroundIff | metroidvania.py:112-122 | ground contact is reported iff vel.y > 0 and some overlapped tile is solid after the move |
| Collision.RestingStaysGrounded | metroidvania.py:102-122 | a body overlapping no solid tile, with no horizontal speed, whose bottom stands on the top of a solid tile in one of its columns, and falling at least one whole pixel and at most one tile, stays where it is, on ground, with zero velocity |
| Collision.RestingLands | metroidvania.py:112-122 | the vertical pass of a body overlapping no solid tile, whose bottom stands on the top of a solid tile in one of its columns, and falling 1 to TILE whole pixels, puts it back where it stood, on ground, with vel.y 0 |
| Collision.FallingRowsAbove | metroidvania.py:112-113 | after a fall of at most one tile, rows above the standing row were already overlapped |
| Entities.Entity.constructor | metroidvania.py:97-100 | the body starts at its top-left corner with zero velocity |
| Entities.Entity.CollideLevel | metroidvania.py:102-122 | the new rect, velocity and ground flag are exactly the two-pass collision result |
| Entities.Resolve | metroidvania.py:102-122 | the horizontal loop, then the vertical loop on its result, computes the two-pass collision result |
| Entities.ResolveX | metroidvania.py:103-111 | the horizontal nested loops compute the clamp by the first solid overlapped tile |
| Entities.ResolveY | metroidvania.py:112-122 | the vertical nested loops compute the clamp and ground flag by the first solid overlapped tile |
| Entities.ColumnX | metroidvania.py:105-111 | the inner loop over one column's rows extends the horizontal clamp from the earlier columns to this one |
| Entities.ColumnY | metroidvania.py:116-122 | the inner loop over one column's rows extends the vertical clamp and ground flag from the earlier columns to this one |
| Entities.ProbeTile | metroidvania.py:146-147 | the definition of the probed tile; its contract: the column holds the pixel centerx + direction*TILE//2, the row holds pixel bottom+1. Since bottom is exclusive, that is the row under the feet when bottom is tile-aligned (ProbeColumns), and one row lower when bottom is TILE-1 modulo TILE |
| Entities.ProbeColumns | metroidvania.py:146-147 | for a one-tile-wide enemy, facing right probes the column just past its right edge, and facing left probes its own leftmost column; the probed row is the row under its feet |
| Entities.Patrol | metroidvania.py:146-148 | the direction stays in {-1, 1}, and flips iff the probed tile is not solid |
| Entities.Enemy.constructor | metroidvania.py:140-142 | an enemy is a TILE-square body facing -1 or 1 |
| Entities.Enemy.Update | metroidvania.py:144-149 | the direction follows the patrol rule and stays in {-1, 1}; the frame's vel.x is ENEMY_SPEED times the pre-flip direction; gravity, then collision |
| Entities.Player.constructor | metroidvania.py:199-202 | a TILE by 48 body with health 4, a full magazine and no reload under way |
| Entities.Player.TryReload | metroidvania.py:213-215 | no-op when reloading or full; otherwise reloading starts at now; ammo stays in [0, MAG_CAPACITY] |
| Entities.Player.Shoot | metroidvania.py:217-220 | ammo drops by exactly 1 iff not reloading and ammo > 0, even when no shot results; a shot leaves from the body centre along the aim vector, iff one was spent and the aim vector is non-zero |
| Entities.Player.Update | metroidvania.py:222-226 | a reload lasting RELOAD_MS refills the magazine and ends; otherwise ammo and reloading are unchanged; then gravity and collision set the body and on_ground |
| Game.CameraX | metroidvania.py:301 | the camera never goes left of 0, and in a level at least a screen wide it never shows past the right end |
| Game.CameraFollows | metroidvania.py:301 | the camera centres the player when it can and otherwise stops at an edge; while the player's centre is inside a level at least a screen wide, it is in view |
| Game.Touch | metroidvania.py:298-300 | touching an enemy costs exactly one health point and moves the player one tile sideways; the loop stops iff health reaches 0 |
| Game.AfterContacts | metroidvania.py:297-300 | a frame costs at most one health point per enemy; the loop stops early only with health at most 0 |
| Game.Contacts | metroidvania.py:297-300 | the contact loop with its break computes the contact result over the enemies in order |
| Game.DeadStaysDead | metroidvania.py:300 | after the fatal contact, later enemies change nothing |
| Game.KnockbackMovesAway | metroidvania.py:299 | each contact pushes the player's centre exactly one tile further from the enemy's centre |
| Game.NoContactNoHarm | metroidvania.py:297-298 | a player touching no enemy keeps its rectangle and health |
| Game.Step | metroidvania.py:283-300 | the only transitions are game-over to loading (exactly on a restart, starting at its time), loading to playing (exactly on a tick at least LOAD_TIME_MS after the start), and playing to game-over (iff fallen below the screen or out of health) |
| Game.PlayingNeedsLoading | metroidvania.py:284-289 | after game over, play resumes only after a restart followed by a loading tick at least LOAD_TIME_MS later |
| Game.LoadingStartedByRestart | metroidvania.py:284-285 | a loading phase reached from game over began with a restart at its start time |
| Game.Run | metroidvania.py:275-300 | the definition of the main loop's phase over a sequence of frames' events; its contract: without a restart request, the game-over screen never changes |

## Left out

- The `random` calls. Platform runs are an injected sequence of 42 draws of
  (length, offset, row), with the `randint` ranges as preconditions. Each column
  with a surface consumes one enemy draw, `Miss` or `Hit(direction)`. A draw
  stands for both the `ENEMY_CHANCE` test and the new enemy's `random.choice`.
- Levels.Level.EnsureWidth: returns spawn records (position and facing), not
  `Enemy` sprites. The buffer is a value, so the aliasing between the returned
  list and `enemies_buffer` is not modelled.
- Levels.Level.constructor: requires at least 26 rows. The start-point search
  reads rows up to 25, and the row draw needs `h_tiles - 10 >= 6`. The game uses
  40 rows.
- Floating point:
  - Gravity 0.35 is taken as an integer parameter, and velocities are integers.
    The truncation pygame applies when a fractional velocity is added to an
    integer `Rect` is not modelled.
  - `PLATFORM_DENSITY` is kept only through its product, 42.
  - `handle_input` is not part of this model. It sets velocities from key state
    with the float `RUN_MULT`. `Player.Update` starts after it.
- Collision.RestingStaysGrounded: holds only for a whole-pixel fall (vy >= 1).
  With the source's fractional gravity 0.35, a standing body's `rect.y += vel.y`
  is truncated to no move at vel.y 0.35 and 0.70. Nothing is overlapped, so
  `collide_level` reports no ground and vel.y keeps growing until it reaches
  1.05 and the body lands. So `on_ground` is true on one frame in three, and a
  jump is accepted only after such a frame. The model's integer velocities do
  not capture this.
- Entities.Player.Update: takes the clock value `now` as a parameter instead of
  calling `pygame.time.get_ticks()`. TryReload does the same.
- Entities.Player.constructor: sets `on_ground` to false. The source never sets it
  in `__init__`; it is first assigned at metroidvania.py:226, after `handle_input`
  has run at :223. `handle_input` reads it at :210 when a jump key is held, so
  holding a jump key on the first playing frame raises `AttributeError` in the
  source. The model has no such fault.
- Entities.Player.Shoot: returns the shot's origin and aim vector. It does not
  build a `Bullet`, because bullet motion (`normalize`, float speed, `round`) is
  floating point. `Bullet.update` is not part of this model.
- Game.Step: the restart click's hit test on the button rectangle is an input
  event. So is the Enter key. Both are folded into one `Restart` event. Building
  a new game on entering play is not modelled as part of the phase.
- Game.Step: the source's restart click reads `btn` (metroidvania.py:285), which
  is first assigned when the game-over screen is drawn (:308). A left click in
  the first frame after the first game over therefore raises
  `UnboundLocalError` in the source. The model's `Restart` event has no such
  fault.
- Game.Contacts: enemies are given as their rectangles, in the sprite group's
  iteration order.
- Rendering and window setup: icons, `Level.draw`, the HUD, the loading and
  game-over screens, `draw_reload`, fonts, display and the frame clock.
- Input: event polling and keyboard state.
- Sprite-group bookkeeping, including `groupcollide` kill counting.
- `echoes.py` and its test: a print loop with no game logic.
