/** The two collaborator interfaces the renderer consumes (AREMap and
    ARETileset), taken as immutable values: each method the renderer's
    buildFaces calls becomes a field holding a total function. */
module Interfaces {
  import opened Wrappers

  /** AREMap: tile lookup per layer (absent = nothing drawn there), a
      per-cell light value, and the number of layers. */
  datatype MapView = MapView(
    layerCount: int,
    tile: (int, int, int) -> Option<int>,
    light: (int, int) -> real)

  /** A normalized texture rectangle: origin (u, v) and size (w, h). */
  datatype TexRect = TexRect(u: real, v: real, w: real, h: real)

  /** ARETileset: the tile size in pixels and the four getTileTex* getters
      folded into one lookup; None stands for a tile code whose getters throw. */
  datatype TilesetView = TilesetView(
    tileWidth: int,
    tileHeight: int,
    rect: int -> Option<TexRect>)
}
