# ARE tile renderer: a verified model of its geometry core

ARE is an Android tile-map renderer. Each frame, `AREView`'s renderer runs
`buildFaces`. It works out which window of map cells the camera shows. It
asks the bound map (`AREMap`) for each cell's tile code and light, and the
bound tileset (`ARETileset`) for each code's texture rectangle. Then it
appends one quad (two triangles, six vertices of five floats) per cell to
that layer's vertex buffer (`VBO`). `TestLevel` is a map read from lines of
text. `ASCIITileset` loads tile definitions, packs one glyph strip per
definition into a texture atlas, and answers the texture getters.

The project is modelled in Dafny and proved:

- `wrappers.dfy` (`Wrappers`): the `Option` type.
- `interfaces.dfy` (`Interfaces`): the two collaborator interfaces as value
  types. `MapView` stands for `AREMap` and `TilesetView` for `ARETileset`.
  Each method that `buildFaces` calls becomes a field holding a total
  function: `getLayerCount`, `getTile` and `getLight` of the map, and
  `tileSize` and the four `getTileTex*` getters of the tileset. `None` stands
  for a code whose getters throw.
- `vbo.dfy` (`VertexBuffer`): `VBO` as a class over an `array<real>` with a
  tile counter. `Clear` and `Add` change it in place. `QuadFloats`/`Floats`
  specify what the buffer holds.
- `viewport.dfy` (`Viewport`): the arithmetic and walk of `buildFaces` as
  pure functions.
  - `WindowOf` gives the tile size, tiles across and down, scroll offset
    and upper-left corner.
  - `Visible` lists the cells that hold a tile, in walk order.
  - `Emit` and `LayerFill` give what a layer's buffer ends with, including
    the first fault.
- `view.dfy` (`View`): the `AREView` class, with its camera, bound map and
  tileset, and per-layer buffers. `BuildFaces`, `AllocateVBOs` and
  `MoveCenter` change them in place. `FillLayer` and its helpers are the
  loops of `buildFaces`, each proved against `LayerFill`.
- `level.dfy` (`Levels`): `TestLevel`, whose constructor parses the text
  with two nested loops proved against `Parse`, plus its getters.
- `tileset.dfy` (`Tilesets`): `ASCIITileset.Initialize`, with its insertion
  loop proved against `InsertAll` and its strip layout loop proved against
  `Laid`, plus the getters.
- `scenario.dfy` (`Scenario`): one concrete frame worked out in full.

Modelling choices:

- `Float` is modelled as `real`.
- `Float.toInt()` is truncation toward zero (`Trunc`).
- Kotlin `Int / 2` is also truncation toward zero (`Half`).
- An exception is modelled as a fault value that stops the loop where it is
  thrown. The model states exactly what the buffers or the definition list
  hold at that point.
- `buildFaces` faults:
  - `UnknownTileCode`: a getter throws for the cell's code.
  - `CapacityExceeded`: `put` overflows a full buffer.
- `initialize` faults:
  - `IndexOutOfRange`: `ArrayList.add(index, …)` is given a bad index.
  - `BadBitmapSize`: `createBitmap` is given a size that is not positive.

Four behaviours of the code that the model keeps:

- The window origin and scroll offset use truncation, not floor. For a
  negative centre that is not a whole number, the offset is in (-1, 0], not
  [0, 1). The first column's quad then starts right of the screen edge, and
  the strip before it is left undrawn (`NegativeCentreLeavesStrip`).
- Buffers are allocated only when there are none. They are never
  reallocated when the layer count changes. The layer loop runs over the
  buffers, not over `getLayerCount()`.
- The early return in `buildFaces` leaves existing buffers untouched. It
  does not clear them.
- A fault part-way through a layer leaves that buffer with the quads
  appended before it. The fill is not transactional. Later layers keep the
  previous frame's contents.

## Model

| member | source | states |
|---|---|---|
| `VertexBuffer.QuadFloats` | app/src/main/java/com/dlfsystems/are/AREView.kt:86-121 | the staged floats of one tile: 30 of them, 6 vertices of 5 (laid out as QuadLayout states) |
| `VertexBuffer.QuadLayout` | app/src/main/java/com/dlfsystems/are/AREView.kt:87-121 | each of the six vertices `add` stages is the corner vertex of its slot (TL, TR, BR, TL, BR, BL): position and texture coordinate on the same corner, light from the call |
| `VertexBuffer.QuadSharesDiagonal` | app/src/main/java/com/dlfsystems/are/AREView.kt:87-121 | the two triangles share the TL-BR diagonal (vertex 3 = vertex 0, vertex 4 = vertex 2), and every vertex carries the light |
| `VertexBuffer.FloatsAt` | app/src/main/java/com/dlfsystems/are/AREView.kt:123-124 | the i-th tile written occupies floats [30i, 30i+30) of the buffer |
| `VertexBuffer.VBO.constructor` | app/src/main/java/com/dlfsystems/are/AREView.kt:63-77 | a zero-filled buffer of maxTiles * 6 * 5 floats, no tiles written |
| `VertexBuffer.VBO.Contents` | app/src/main/java/com/dlfsystems/are/AREView.kt:315-315 | the floats the draw call reads: the first 30 * tileCount of the buffer |
| `VertexBuffer.VBO.Clear` | app/src/main/java/com/dlfsystems/are/AREView.kt:80-83 | the tile count returns to 0 and the visible contents become empty; the stored floats are not erased |
| `VertexBuffer.VBO.Add` | app/src/main/java/com/dlfsystems/are/AREView.kt:85-126 | succeeds iff the buffer is not full; then the contents are the old contents followed by the tile's 30 floats, written at 30 * tileCount with the rest of the array unchanged; when full, nothing changes |
| `Viewport.Trunc` | app/src/main/java/com/dlfsystems/are/AREView.kt:271-276 | toInt rounds toward zero: within 1 below a non-negative value, within 1 above a negative one |
| `Viewport.Half` | app/src/main/java/com/dlfsystems/are/AREView.kt:275-276 | n / 2 truncates toward zero: remainder 0 or 1 for n >= 0, 0 or -1 for n < 0 |
| `Viewport.Span` | app/src/main/java/com/dlfsystems/are/AREView.kt:271-272 | the tiles along an axis: the whole tiles that fit plus 2, so at least 2 for a screen that is not negative |
| `Viewport.WindowOf` | app/src/main/java/com/dlfsystems/are/AREView.kt:269-276 | positive tile size on screen, at least 2 tiles across and down for a non-negative screen, and map cell upperLeft + span/2 (shown in window column span/2 - 1) plus the offset is exactly the camera centre |
| `Viewport.SpanCoversScreen` | app/src/main/java/com/dlfsystems/are/AREView.kt:269-272 | the +2 padding never under-covers: even without the last tile the span reaches past the screen edge |
| `Viewport.Offset` | app/src/main/java/com/dlfsystems/are/AREView.kt:273-274 | the scroll offset is in [0, 1) for a centre that is not negative, and in (-1, 0] for a negative one, because toInt truncates |
| `Viewport.Origin` | app/src/main/java/com/dlfsystems/are/AREView.kt:275-276 | the upper-left corner is half a span before the truncated centre, so map cell upperLeft + span/2 (window column span/2 - 1, because the walk adds 1) plus the offset is exactly the centre |
| `Viewport.AxisCovered` | app/src/main/java/com/dlfsystems/are/AREView.kt:269-287 | for a non-negative centre, every pixel from 0 to the screen edge lies inside the quad of some window column |
| `Viewport.NegativeCentreLeavesStrip` | app/src/main/java/com/dlfsystems/are/AREView.kt:273-287 | for a negative centre that is not whole, every window column's quad starts right of pixel 0, so a strip stays undrawn |
| `Viewport.QuadFollowsCentre` | app/src/main/java/com/dlfsystems/are/AREView.kt:273-287 | a map column's quad position depends only on the centre itself (mapX - centre + half the span - 1, times the tile size), so it moves with no jump at whole numbers |
| `Viewport.Visible` | app/src/main/java/com/dlfsystems/are/AREView.kt:280-285 | the cells of the nested repeat walk that hold a tile; each lies inside the window and in a row already walked (soundness, completeness and order are the lemmas below) |
| `Viewport.VisibleSound` | app/src/main/java/com/dlfsystems/are/AREView.kt:280-285 | every listed cell lies in the walked part of the window and carries the map's tile code and light for its map cell |
| `Viewport.VisibleComplete` | app/src/main/java/com/dlfsystems/are/AREView.kt:280-285 | every walked cell whose map cell holds a tile is listed |
| `Viewport.VisibleOrdered` | app/src/main/java/com/dlfsystems/are/AREView.kt:280-285 | cells are listed in strictly increasing row, then column, as the nested repeats visit them |
| `Viewport.VisibleCount` | app/src/main/java/com/dlfsystems/are/AREView.kt:280-285 | at most one cell per walked position |
| `Viewport.VisiblePrefix` | app/src/main/java/com/dlfsystems/are/AREView.kt:280-285 | an earlier point of the walk has listed a prefix of what a later point lists |
| `Viewport.QuadOf` | app/src/main/java/com/dlfsystems/are/AREView.kt:286-291 | the arguments of add for one cell: one tile in size, the getters' texture rectangle, the cell's light |
| `Viewport.QuadsAbut` | app/src/main/java/com/dlfsystems/are/AREView.kt:287-288 | quads of neighbouring columns and rows touch with neither gap nor overlap |
| `Viewport.Emit` | app/src/main/java/com/dlfsystems/are/AREView.kt:285-292 | the quads appended never exceed the buffer capacity nor the number of cells |
| `Viewport.EmitSticky` | app/src/main/java/com/dlfsystems/are/AREView.kt:278-296 | after a fault, further cells change nothing (the exception leaves the loop) |
| `Viewport.StoppedWalk` | app/src/main/java/com/dlfsystems/are/AREView.kt:278-296 | a fault at some cell fixes what the whole layer ends with |
| `Viewport.EmitComplete` | app/src/main/java/com/dlfsystems/are/AREView.kt:285-292 | a layer fills without fault iff every code is known and the cells fit; then quad i is cell i's quad, shifted back by the offset and scaled by the tile size, with its code's texture rectangle and its light |
| `Viewport.LayerFill` | app/src/main/java/com/dlfsystems/are/AREView.kt:278-296 | what one layer's buffer ends with: the walk emitted in order, never more quads than the buffer holds |
| `Viewport.LayerTileCount` | app/src/main/java/com/dlfsystems/are/AREView.kt:278-296 | a faultless layer holds one quad per visible cell with a tile, at most across * down |
| `Viewport.EmptyMapEmptyLayer` | app/src/main/java/com/dlfsystems/are/AREView.kt:285-292 | a map with no tile anywhere yields an empty layer and never faults |
| `View.FillLayer` | app/src/main/java/com/dlfsystems/are/AREView.kt:279-295 | after clearing and walking, the buffer holds exactly the floats of LayerFill's quads, and the fault is LayerFill's fault |
| `View.FillRow` | app/src/main/java/com/dlfsystems/are/AREView.kt:281-294 | one row of the walk extends the walk to the next row, or on a fault leaves what the whole layer ends with |
| `View.VisitCell` | app/src/main/java/com/dlfsystems/are/AREView.kt:282-293 | one cell extends the buffer exactly as Emit extends the walk by that cell |
| `View.PlaceTile` | app/src/main/java/com/dlfsystems/are/AREView.kt:285-292 | a cell with a tile: the getters are consulted, then the quad is appended, matching Emit on the extended list |
| `View.AppendQuad` | app/src/main/java/com/dlfsystems/are/AREView.kt:286-292 | the quad is appended iff the buffer is not full; otherwise the contents are unchanged |
| `View.AREView.constructor` | app/src/main/java/com/dlfsystems/are/AREView.kt:29-44 | nothing bound, no buffers, zoom 1.5, centre and target at the origin |
| `View.AREView.MoveCenter` | app/src/main/java/com/dlfsystems/are/AREView.kt:179-188 | the target becomes (x, y); without animation the centre jumps to it; with animation the centre stays; nothing else changes |
| `View.AREView.AllocateVBOs` | app/src/main/java/com/dlfsystems/are/AREView.kt:299-303 | appends one fresh empty buffer of 50 * 100 tiles per map layer (none for a negative count) and keeps the existing ones |
| `View.AREView.BuildFaces` | app/src/main/java/com/dlfsystems/are/AREView.kt:262-297 | without map, tileset or screen width nothing changes; otherwise buffers are allocated only if there are none, and each layer up to the first fault holds exactly LayerFill's quads for the current window, in layer order; later layers keep their old contents |
| `View.AREView.RefillLayer` | app/src/main/java/com/dlfsystems/are/AREView.kt:278-295 | one pass of the layer loop refills that layer's buffer and leaves every other buffer's contents unchanged |
| `View.AREView.FillLayers` | app/src/main/java/com/dlfsystems/are/AREView.kt:278-296 | buffer i is filled from layer i until the first faulting layer, which is reported; all earlier layers were faultless |
| `Levels.CharCode` | app/src/main/java/com/dlfsystems/are/TestLevel.kt:14-19 | every character reads as a code between 0 and 3 |
| `Levels.CodeRoundTrip` | app/src/main/java/com/dlfsystems/are/TestLevel.kt:14-19 | codes 1, 2, 3 come from exactly 'X', '.', 'a'; every other character reads as 0 |
| `Levels.ParseLine` | app/src/main/java/com/dlfsystems/are/TestLevel.kt:12-20 | a row as long as the line, element j the code of character j |
| `Levels.Parse` | app/src/main/java/com/dlfsystems/are/TestLevel.kt:10-23 | one row per line, row i the parse of line i |
| `Levels.ParsedCodesInRange` | app/src/main/java/com/dlfsystems/are/TestLevel.kt:14-19 | every code of a parsed grid is between 0 and 3 |
| `Levels.TestLevel.constructor` | app/src/main/java/com/dlfsystems/are/TestLevel.kt:10-23 | the nested loops build exactly Parse(text) |
| `Levels.TestLevel.GetMapHeight` | app/src/main/java/com/dlfsystems/are/TestLevel.kt:7-7 | the number of rows |
| `Levels.TestLevel.GetMapWidth` | app/src/main/java/com/dlfsystems/are/TestLevel.kt:8-8 | 0 with no rows, else the length of row 0 only |
| `Levels.TestLevel.GetLight` | app/src/main/java/com/dlfsystems/are/TestLevel.kt:32-35 | every cell is fully lit (1) |
| `Levels.TestLevel.GetLayerCount` | app/src/main/java/com/dlfsystems/are/TestLevel.kt:37-39 | a test level has one layer |
| `Levels.TestLevel.View` | app/src/main/java/com/dlfsystems/are/TestLevel.kt:3-39 | the level as an AREMap, with its layer count |
| `Levels.LevelShape` | app/src/main/java/com/dlfsystems/are/TestLevel.kt:7-23 | a level built from text has one row per line, row i as long as line i, and the width of line 0 |
| `Levels.LevelLookup` | app/src/main/java/com/dlfsystems/are/TestLevel.kt:25-30 | getTile yields a code iff (x, y) exists in the ragged text, including negatives as absent; the code is that character's, for any layer |
| `Levels.LevelCodes` | app/src/main/java/com/dlfsystems/are/TestLevel.kt:25-30 | every code getTile returns is between 0 and 3 |
| `Tilesets.InsertAll` | app/src/main/java/com/dlfsystems/are/ASCIITileset.kt:31-37 | the list grows by one per successful insert; a failed insert is at a position of the input, and the list is as long as that position |
| `Tilesets.InsertStops` | app/src/main/java/com/dlfsystems/are/ASCIITileset.kt:37-37 | once an insert throws, later definitions change nothing |
| `Tilesets.InsertFailure` | app/src/main/java/com/dlfsystems/are/ASCIITileset.kt:37-37 | after a failed insert the list is exactly the completed insertion of the definitions before the failing one, and the failing id lies outside [0, size of that list] |
| `Tilesets.InsertSucceeds` | app/src/main/java/com/dlfsystems/are/ASCIITileset.kt:37-37 | every insert succeeds iff the definition at position i has 0 <= id <= i |
| `Tilesets.InsertPermutes` | app/src/main/java/com/dlfsystems/are/ASCIITileset.kt:31-37 | a completed list is a permutation of the loaded definitions |
| `Tilesets.InsertedIdsInRange` | app/src/main/java/com/dlfsystems/are/ASCIITileset.kt:31-37 | every id in a completed list is a position of the list |
| `Tilesets.InsertInOrder` | app/src/main/java/com/dlfsystems/are/ASCIITileset.kt:31-37 | definitions loaded with ids 0..n-1 in order stay in that order |
| `Tilesets.Share` | app/src/main/java/com/dlfsystems/are/ASCIITileset.kt:53-55 | the strip width 1/size is positive and size strips make exactly the atlas width |
| `Tilesets.Placed` | app/src/main/java/com/dlfsystems/are/ASCIITileset.kt:53-56 | gives a definition all four strip fields and changes nothing else about it |
| `Tilesets.Laid` | app/src/main/java/com/dlfsystems/are/ASCIITileset.kt:52-57 | the layout loop keeps the list's length and id order and gives every position a strip |
| `Tilesets.LaidAt` | app/src/main/java/com/dlfsystems/are/ASCIITileset.kt:52-57 | after the layout, code k's strip starts at id/size, at v 0, with width 1/size and height 1 |
| `Tilesets.StripInAtlas` | app/src/main/java/com/dlfsystems/are/ASCIITileset.kt:52-57 | a strip whose id is a list position lies in [0, 1], ending at (id+1)/size |
| `Tilesets.StripsDisjoint` | app/src/main/java/com/dlfsystems/are/ASCIITileset.kt:52-57 | strips of different ids do not overlap |
| `Tilesets.ASCIITileset.constructor` | app/src/main/java/com/dlfsystems/are/ASCIITileset.kt:9-27 | keeps the tile size; no definitions, no atlas |
| `Tilesets.ASCIITileset.TileSize` | app/src/main/java/com/dlfsystems/are/ASCIITileset.kt:24-27 | the point (tileWidth, tileHeight) |
| `Tilesets.ASCIITileset.Initialize` | app/src/main/java/com/dlfsystems/are/ASCIITileset.kt:29-57 | a bad insert index stops with the list as far as it got and the atlas untouched; a non-positive atlas size stops after all inserts; otherwise the atlas is (tileWidth * size) x tileHeight and every definition has its strip |
| `Tilesets.ASCIITileset.GetAllTextures` | app/src/main/java/com/dlfsystems/are/ASCIITileset.kt:68-71 | the one atlas once created; an IllegalStateException (None) before |
| `Tilesets.ASCIITileset.GetTileTex` | app/src/main/java/com/dlfsystems/are/ASCIITileset.kt:82-82 | the atlas, whatever the code |
| `Tilesets.ASCIITileset.GetTile` | app/src/main/java/com/dlfsystems/are/ASCIITileset.kt:73-81 | present iff the atlas and all four getters are, and then made of exactly their values |
| `Tilesets.ASCIITileset.View` | app/src/main/java/com/dlfsystems/are/ASCIITileset.kt:83-86 | the tileset as an ARETileset with its tile size |
| `Tilesets.StripOf` | app/src/main/java/com/dlfsystems/are/ASCIITileset.kt:83-86 | a strip is returned exactly for a list position whose four fields are set, and it is made of those fields |
| `Tilesets.ViewAgreesWithGetters` | app/src/main/java/com/dlfsystems/are/ASCIITileset.kt:83-86 | the rectangle the view gives is present iff all four getTileTex getters succeed, and it is made of their values |
| `Tilesets.InitializedStrips` | app/src/main/java/com/dlfsystems/are/ASCIITileset.kt:37-57 | after a completed initialize, a code has a strip iff it is in [0, size), and the strip lies inside the atlas at full height |
| `Scenario.ScenarioCells` | app/src/main/java/com/dlfsystems/are/AREView.kt:269-285 | a 20x20 screen, 10-pixel tiles, zoom 1 and centre (0.5, 0.5) give a 4x4 window from (-2, -2), and a 2x2 map yields its four cells in row order |
| `Scenario.ScenarioBuffer` | app/src/main/java/com/dlfsystems/are/AREView.kt:262-297 | that frame fills without fault with four quads at (5, 5), (15, 5), (5, 15), (15, 15); the first tile's 30 floats are given exactly |

## Left out

- OpenGL: shader setup, texture upload (`loadTextures`), `drawFaces` and the
  renderer callbacks are GPU calls. `VBO.Contents` stands for the floats the
  draw call reads: `tileCount * 6` vertices.
- Touch, scale gestures, `onLayout` and `DisplayMetrics` are input and
  platform events. The screen size is a field that the model takes as
  given.
- The tileset setter's call to `loadTextures` is left out, because it is a
  GPU side effect.
- Threads: the GL thread and the UI thread share the view unsynchronised.
  The model is sequential.
- Resource loading in `initialize` is left out: reading the raw resource,
  Gson decoding, font and `fontSize`, `Color.parseColor` and the canvas
  drawing are I/O or platform code. The decoded definitions are
  `Initialize`'s parameter.
- `parseColor` (on a bad colour) and `Character.toChars` (on an invalid
  code point) can throw part-way through the layout loop. The model does
  not capture that partial state.
- `MainActivity` and `extensions.kt` are not part of this model. They only
  wire the view up.
- `ARELevel` is not part of this model. It is an interface that nothing
  implements or uses.
- IEEE `Float` rounding is left out: arithmetic is exact on `real`.
- `toInt()` saturation and NaN handling are left out, and so is 32-bit `Int`
  overflow of `tileWidth * size` or of the window arithmetic: integers are
  unbounded.
- The `FloatBuffer` position cursor and the `addV` scratch array are folded
  into `Add`. The cursor always sits at `30 * tileCount` before a `put`.
- `AREMap` and `ARETileset` are modelled as immutable values with total
  functions (`MapView`, `TilesetView`). A map or tileset that changes
  between frames, or that throws from `getTile`/`getLight`, is not
  captured.
- `TileDef` is a value updated inside a sequence. Aliasing between the
  loaded list and `tileDefs` is not visible in the model.
- View.AREView.BuildFaces assumes the tile size on screen is positive.
  `AREView.Valid` states this as zoom > 0 and a tileset tile size > 0.
  `Valid` is required by every `AREView` method, `MoveCenter` and
  `AllocateVBOs` included.
- A zero tile size on screen is not modelled. In the source, a zero
  `tileW` makes `screenSize.x / tileW` +Infinity, and `toInt()` saturates
  it to `Int.MAX_VALUE`. The `+ 2` then wraps `tilesAcross` to a negative
  number. So the column `repeat` (AREView.kt:281) visits no cell, and every
  buffer is cleared and left empty. A zero `tileH` with a zero screen
  height instead gives `0 / 0f`, which is NaN, and `toInt()` makes that 0.
  That walks two rows of zero-height quads.
- A negative tile size on screen (negative zoom or tile size) is not
  modelled either.
- Levels.TestLevel.GetTile has no contract of its own. `LevelLookup` and
  `LevelCodes` state what it returns.
- Tilesets.ASCIITileset.GetTileTexX, `GetTileTexY`, `GetTileTexW` and
  `GetTileTexH` have no contract of their own. `ViewAgreesWithGetters`,
  `LaidAt` and `InitializedStrips` state what they return.
- Levels.ParseLine: a line is a sequence of Unicode scalar values, while
  Kotlin iterates UTF-16 units. A character outside the Basic Multilingual
  Plane is one code (0) here but two codes (0, 0) in the source, which
  shifts the later columns of that row by one.
- `getTileTex` (the atlas per code) is modelled but not consulted by
  `buildFaces`, as in the source.
