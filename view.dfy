/** AREView and its renderer: the camera state, the map and tileset it is
    bound to, and the per-layer vertex buffers that buildFaces refills on
    every frame. */
module View {
  import opened Wrappers
  import opened Interfaces
  import opened VertexBuffer
  import opened Viewport

  /** The bound on visible tiles per layer: maxTileWidth * maxTileHeight. */
  const MaxTileWidth: nat := 50
  const MaxTileHeight: nat := 100
  const LayerCapacity: nat := MaxTileWidth * MaxTileHeight

  /** How a frame's buildFaces ended: it returned early, it filled every
      layer, or an exception stopped it while filling `layer`. */
  datatype FrameStatus = NotReady | Built | Failed(layer: nat, fault: Fault)

  /** The body buildFaces runs for one layer: clear the buffer, then walk the
      window row by row and append a quad for every cell that holds a tile.
      A fault ends the walk where it happens, leaving the quads appended
      before it. */
  method FillLayer(vbo: VBO, w: Window, m: MapView, ts: TilesetView, layer: int) returns (fault: Option<Fault>)
    requires vbo.Valid() && 0 <= w.across
    modifies vbo, vbo.verts
    ensures vbo.Valid()
    ensures vbo.Contents() == Floats(LayerFill(w, m, ts, layer, vbo.maxTiles).quads)
    ensures fault == LayerFill(w, m, ts, layer, vbo.maxTiles).fault
  {
    vbo.Clear();
    fault := None;
    ghost var quads: seq<Quad> := [];
    var dy := 0;
    while dy < Rows(w)  // repeat (tilesDown): no rows for a negative count
      invariant 0 <= dy <= Rows(w)
      invariant vbo.Valid() && vbo.tileCount == |quads| && vbo.Contents() == Floats(quads)
      invariant fault == None
      invariant Emit(w, ts, Visible(w, m, layer, dy, 0), vbo.maxTiles) == Fill(quads, None)
    {
      fault, quads := FillRow(vbo, w, m, ts, layer, dy, quads);
      if fault.Some? {
        return;
      }
      dy := dy + 1;
    }
  }

  /** One row of the walk: the cells dx = 0, 1, ... of row dy, up to the end
      of the row or the first fault, which ends the walk of the layer. */
  method FillRow(vbo: VBO, w: Window, m: MapView, ts: TilesetView, layer: int, dy: nat, ghost quads: seq<Quad>)
    returns (fault: Option<Fault>, ghost quads': seq<Quad>)
    requires vbo.Valid() && 0 <= w.across && dy < Rows(w)
    requires vbo.tileCount == |quads| && vbo.Contents() == Floats(quads)
    requires Emit(w, ts, Visible(w, m, layer, dy, 0), vbo.maxTiles) == Fill(quads, None)
    modifies vbo, vbo.verts
    ensures vbo.Valid() && vbo.tileCount == |quads'| && vbo.Contents() == Floats(quads')
    ensures fault.None? ==> Emit(w, ts, Visible(w, m, layer, dy + 1, 0), vbo.maxTiles) == Fill(quads', None)
    ensures fault.Some? ==> LayerFill(w, m, ts, layer, vbo.maxTiles) == Fill(quads', fault)
  {
    fault, quads' := None, quads;
    var dx := 0;
    while dx < w.across
      invariant 0 <= dx <= w.across
      invariant vbo.Valid() && vbo.tileCount == |quads'| && vbo.Contents() == Floats(quads')
      invariant fault == None
      invariant Emit(w, ts, Visible(w, m, layer, dy, dx), vbo.maxTiles) == Fill(quads', None)
    {
      fault, quads' := VisitCell(vbo, w, m, ts, layer, dx, dy, quads');
      if fault.Some? {
        StoppedWalk(w, m, ts, layer, vbo.maxTiles, dy, dx + 1);
        return;
      }
      dx := dx + 1;
    }
    NextRow(w, m, layer, dy);
  }

  /** One cell of the walk: look up its tile and light, and when it holds a
      tile append its quad, or stop with the fault the lookup or the append
      raises. */
  method VisitCell(vbo: VBO, w: Window, m: MapView, ts: TilesetView, layer: int,
                   dx: int, dy: nat, ghost quads: seq<Quad>)
    returns (fault: Option<Fault>, ghost quads': seq<Quad>)
    requires vbo.Valid() && 0 <= dx < w.across
    requires vbo.tileCount == |quads| && vbo.Contents() == Floats(quads)
    requires Emit(w, ts, Visible(w, m, layer, dy, dx), vbo.maxTiles) == Fill(quads, None)
    modifies vbo, vbo.verts
    ensures vbo.Valid() && vbo.tileCount == |quads'| && vbo.Contents() == Floats(quads')
    ensures Emit(w, ts, Visible(w, m, layer, dy, dx + 1), vbo.maxTiles) == Fill(quads', fault)
  {
    var mapX := w.upperLeftX + dx + 1;
    var mapY := w.upperLeftY + dy + 1;
    var light := m.light(mapX, mapY);
    ghost var cells := Visible(w, m, layer, dy, dx);
    match m.tile(mapX, mapY, layer) {
      case None =>
        assert Visible(w, m, layer, dy, dx + 1) == cells;
        quads', fault := quads, None;
      case Some(code) =>
        var c := Cell(dx, dy, code, light);
        assert Visible(w, m, layer, dy, dx + 1) == cells + [c];
        fault, quads' := PlaceTile(vbo, w, ts, c, cells, quads);
    }
  }

  /** A cell that holds a tile: the tileset's getters give its texture
      rectangle, then its quad is appended. */
  method PlaceTile(vbo: VBO, w: Window, ts: TilesetView, c: Cell, ghost cells: seq<Cell>, ghost quads: seq<Quad>)
    returns (fault: Option<Fault>, ghost quads': seq<Quad>)
    requires vbo.Valid() && vbo.tileCount == |quads| && vbo.Contents() == Floats(quads)
    requires Emit(w, ts, cells, vbo.maxTiles) == Fill(quads, None)
    modifies vbo, vbo.verts
    ensures vbo.Valid() && vbo.tileCount == |quads'| && vbo.Contents() == Floats(quads')
    ensures Emit(w, ts, cells + [c], vbo.maxTiles) == Fill(quads', fault)
  {
    EmitStep(w, ts, cells, c, vbo.maxTiles, quads);
    match ts.rect(c.code) {
      case None =>
        quads', fault := quads, Some(UnknownTileCode(c.code));
      case Some(r) =>
        var ok;
        ok, quads' := AppendQuad(vbo, QuadOf(w, c, r), quads);
        fault := if ok then None else Some(CapacityExceeded);
    }
  }

  /** The call to add for one cell: its quad is appended unless the buffer
      is full. */
  method AppendQuad(vbo: VBO, q: Quad, ghost quads: seq<Quad>) returns (ok: bool, ghost quads': seq<Quad>)
    requires vbo.Valid() && vbo.tileCount == |quads| && vbo.Contents() == Floats(quads)
    modifies vbo, vbo.verts
    ensures vbo.Valid() && vbo.tileCount == |quads'| && vbo.Contents() == Floats(quads')
    ensures ok <==> |quads| < vbo.maxTiles
    ensures quads' == if ok then quads + [q] else quads
  {
    ok := vbo.Add(q.x, q.y, q.w, q.h, q.tx, q.ty, q.tw, q.th, q.light);
    quads' := quads;
    if ok {
      quads' := quads + [q];
      assert quads'[..|quads'| - 1] == quads;
    }
  }

  class AREView {
    var tileMap: Option<MapView>  // the source's `map`
    var tileset: Option<TilesetView>
    var zoom: real
    var centerX: real
    var centerY: real
    var centerTargetX: real
    var centerTargetY: real
    /** Set from the layout's width and height. */
    var screenW: int
    var screenH: int
    var layerVBOs: seq<VBO>
    ghost var Repr: set<object>

    ghost predicate Valid()
      reads this, Repr
    {
      && this in Repr
      && zoom > 0.0
      && (tileset.Some? ==> tileset.value.tileWidth > 0 && tileset.value.tileHeight > 0)
      && (forall i :: 0 <= i < |layerVBOs| ==>
            && layerVBOs[i] in Repr && layerVBOs[i].verts in Repr
            && layerVBOs[i].Valid() && layerVBOs[i].maxTiles == LayerCapacity)
      && (forall i, j :: 0 <= i < |layerVBOs| && 0 <= j < |layerVBOs| && i != j ==>
            layerVBOs[i] != layerVBOs[j] && layerVBOs[i].verts != layerVBOs[j].verts)
    }

    /** The contents of layer i's buffer. */
    ghost function LayerContents(i: nat): seq<real>
      reads this, Repr
      requires Valid() && i < |layerVBOs|
    {
      layerVBOs[i].Contents()
    }

    /** A view with nothing bound, zoom 1.5, centred on the origin. */
    constructor ()
      ensures Valid() && fresh(Repr)
      ensures tileMap == None && tileset == None && layerVBOs == []
      ensures zoom == 1.5 && centerX == 0.0 && centerY == 0.0
      ensures centerTargetX == 0.0 && centerTargetY == 0.0
      ensures screenW == 0 && screenH == 0
    {
      tileMap, tileset := None, None;
      zoom := 1.5;
      centerX, centerY := 0.0, 0.0;
      centerTargetX, centerTargetY := 0.0, 0.0;
      screenW, screenH := 0, 0;
      layerVBOs := [];
      Repr := {this};
    }

    /** Moves the camera target; without animation the centre jumps to it,
        with animation (not implemented by the view) the centre stays. */
    method MoveCenter(x: real, y: real, animate: bool)
      requires Valid()
      modifies this
      ensures Valid() && Repr == old(Repr)
      ensures centerTargetX == x && centerTargetY == y
      ensures !animate ==> centerX == x && centerY == y
      ensures animate ==> centerX == old(centerX) && centerY == old(centerY)
      ensures tileMap == old(tileMap) && tileset == old(tileset) && zoom == old(zoom)
      ensures screenW == old(screenW) && screenH == old(screenH) && layerVBOs == old(layerVBOs)
    {
      centerTargetX := x;
      centerTargetY := y;
      if !animate {
        centerX := centerTargetX;
        centerY := centerTargetY;
      }
    }

    /** Whether buildFaces goes past its early return. */
    ghost predicate Ready()
      reads this
    {
      tileMap.Some? && tileset.Some? && screenW >= 1
    }

    /** The window buildFaces computes from the current state. */
    function CurrentWindow(): (w: Window)
      reads this
      requires zoom > 0.0 && tileset.Some?
      requires tileset.value.tileWidth > 0 && tileset.value.tileHeight > 0
      ensures screenW >= 0 ==> w.across >= 2
    {
      WindowOf(screenW, screenH, tileset.value.tileWidth, tileset.value.tileHeight,
               zoom, centerX, centerY)
    }

    /** Appends one empty buffer of LayerCapacity tiles per layer of the
        bound map (none for a negative layer count). */
    method AllocateVBOs()
      requires Valid() && tileMap.Some?
      modifies this
      ensures Valid() && fresh(Repr - old(Repr))
      ensures tileMap == old(tileMap)
      ensures |layerVBOs| == |old(layerVBOs)| + (if tileMap.value.layerCount > 0 then tileMap.value.layerCount else 0)
      ensures layerVBOs[..|old(layerVBOs)|] == old(layerVBOs)
      ensures forall i :: |old(layerVBOs)| <= i < |layerVBOs| ==>
                fresh(layerVBOs[i]) && fresh(layerVBOs[i].verts) && layerVBOs[i].tileCount == 0
      ensures tileMap == old(tileMap) && tileset == old(tileset) && zoom == old(zoom)
      ensures centerX == old(centerX) && centerY == old(centerY)
      ensures centerTargetX == old(centerTargetX) && centerTargetY == old(centerTargetY)
      ensures screenW == old(screenW) && screenH == old(screenH)
    {
      var n := tileMap.value.layerCount;
      var k := 0;
      while k < n
        invariant Valid() && fresh(Repr - old(Repr))
        invariant 0 <= k && (n > 0 ==> k <= n) && (n <= 0 ==> k == 0)
        invariant |layerVBOs| == |old(layerVBOs)| + k
        invariant layerVBOs[..|old(layerVBOs)|] == old(layerVBOs)
        invariant forall i :: |old(layerVBOs)| <= i < |layerVBOs| ==>
                    fresh(layerVBOs[i]) && fresh(layerVBOs[i].verts) && layerVBOs[i].tileCount == 0
        invariant tileMap == old(tileMap) && tileset == old(tileset) && zoom == old(zoom)
        invariant centerX == old(centerX) && centerY == old(centerY)
        invariant centerTargetX == old(centerTargetX) && centerTargetY == old(centerTargetY)
        invariant screenW == old(screenW) && screenH == old(screenH)
      {
        var vbo := new VBO(LayerCapacity);
        layerVBOs := layerVBOs + [vbo];
        Repr := Repr + {vbo, vbo.verts};
        k := k + 1;
      }
    }

    /** The geometry of one frame (buildFaces). Unless a map and a tileset
        are bound and the screen is at least one pixel wide it does nothing
        at all. Otherwise it allocates the buffers if there are none yet,
        works out the window, and clears and refills each buffer from its
        layer, in layer order; a fault (an exception in the source) ends the
        frame in the layer where it happens and later buffers keep what they
        held. */
    method BuildFaces() returns (status: FrameStatus)
      requires Valid()
      modifies Repr
      ensures Valid() && fresh(Repr - old(Repr))
      ensures tileMap == old(tileMap) && tileset == old(tileset) && zoom == old(zoom)
      ensures centerX == old(centerX) && centerY == old(centerY)
      ensures centerTargetX == old(centerTargetX) && centerTargetY == old(centerTargetY)
      ensures screenW == old(screenW) && screenH == old(screenH)
      ensures !old(Ready()) ==> status == NotReady && Repr == old(Repr) && unchanged(Repr)
      ensures |old(layerVBOs)| > 0 ==> layerVBOs == old(layerVBOs)
      ensures old(Ready()) && |old(layerVBOs)| == 0 ==>
        |layerVBOs| == (if tileMap.value.layerCount > 0 then tileMap.value.layerCount else 0)
      ensures old(Ready()) ==> status != NotReady
      ensures old(Ready()) && status == Built ==>
        forall i :: 0 <= i < |layerVBOs| ==>
          LayerFill(CurrentWindow(), tileMap.value, tileset.value, i, LayerCapacity).fault == None
      ensures old(Ready()) && status.Failed? ==>
        && status.layer < |layerVBOs|
        && LayerFill(CurrentWindow(), tileMap.value, tileset.value, status.layer, LayerCapacity).fault
             == Some(status.fault)
        && forall i :: 0 <= i < status.layer ==>
             LayerFill(CurrentWindow(), tileMap.value, tileset.value, i, LayerCapacity).fault == None
      ensures old(Ready()) ==>
        forall i :: 0 <= i < |layerVBOs| && (status == Built || i <= status.layer) ==>
          LayerContents(i) == Floats(LayerFill(CurrentWindow(), tileMap.value, tileset.value, i, LayerCapacity).quads)
      ensures old(Ready()) && status.Failed? ==>
        forall i :: status.layer < i < |old(layerVBOs)| ==> LayerContents(i) == old(LayerContents(i))
      ensures old(Ready()) && status.Failed? && |old(layerVBOs)| == 0 ==>
        forall i :: status.layer < i < |layerVBOs| ==> LayerContents(i) == []
    {
      if tileset.None? || tileMap.None? || screenW < 1 {
        return NotReady;
      }
      if |layerVBOs| < 1 {
        AllocateVBOs();
      }
      // tileW/tileH, tilesAcross/tilesDown, the offsets and upperLeft
      var w := CurrentWindow();
      status := FillLayers(w, tileMap.value, tileset.value);
    }

    /** One pass of that loop: buffer `layer` is refilled, the others keep
        their contents. */
    method RefillLayer(w: Window, m: MapView, ts: TilesetView, layer: nat) returns (fault: Option<Fault>)
      requires Valid() && 0 <= w.across && layer < |layerVBOs|
      modifies layerVBOs[layer], layerVBOs[layer].verts
      ensures Valid()
      ensures fault == LayerFill(w, m, ts, layer, LayerCapacity).fault
      ensures LayerContents(layer) == Floats(LayerFill(w, m, ts, layer, LayerCapacity).quads)
      ensures forall i :: 0 <= i < |layerVBOs| && i != layer ==> LayerContents(i) == old(LayerContents(i))
    {
      var vbo := layerVBOs[layer];
      fault := FillLayer(vbo, w, m, ts, layer);
      forall i | 0 <= i < |layerVBOs| && i != layer
        ensures layerVBOs[i].Valid() && LayerContents(i) == old(LayerContents(i))
      {
        assert layerVBOs[i] != vbo && layerVBOs[i].verts != vbo.verts;
      }
    }

    /** The layerVBOs.forEachIndexed loop of buildFaces: buffer i is filled
        from layer i, until a layer faults. */
    method FillLayers(w: Window, m: MapView, ts: TilesetView) returns (status: FrameStatus)
      requires Valid() && 0 <= w.across
      modifies Repr - {this}
      ensures Valid()
      ensures status != NotReady
      ensures status == Built ==>
        forall i :: 0 <= i < |layerVBOs| ==> LayerFill(w, m, ts, i, LayerCapacity).fault == None
      ensures status.Failed? ==>
        && status.layer < |layerVBOs|
        && LayerFill(w, m, ts, status.layer, LayerCapacity).fault == Some(status.fault)
        && forall i :: 0 <= i < status.layer ==> LayerFill(w, m, ts, i, LayerCapacity).fault == None
      ensures forall i :: 0 <= i < |layerVBOs| && (status == Built || i <= status.layer) ==>
        LayerContents(i) == Floats(LayerFill(w, m, ts, i, LayerCapacity).quads)
      ensures status.Failed? ==>
        forall i :: status.layer < i < |layerVBOs| ==> LayerContents(i) == old(LayerContents(i))
    {
      var layer := 0;
      while layer < |layerVBOs|
        invariant Valid()
        invariant 0 <= layer <= |layerVBOs|
        invariant forall i :: 0 <= i < layer ==>
          LayerFill(w, m, ts, i, LayerCapacity).fault == None &&
          LayerContents(i) == Floats(LayerFill(w, m, ts, i, LayerCapacity).quads)
        invariant forall i :: layer <= i < |layerVBOs| ==> LayerContents(i) == old(LayerContents(i))
      {
        var fault := RefillLayer(w, m, ts, layer);
        if fault.Some? {
          return Failed(layer, fault.value);
        }
        layer := layer + 1;
      }
      return Built;
    }
  }
}
