/** The viewport arithmetic of ARERenderer.buildFaces and the order in which
    it visits map cells, as pure functions: which window of tiles is visible,
    which cells of a layer yield a quad, and what the layer's buffer holds
    once they are appended. */
module Viewport {
  import opened Wrappers
  import opened Interfaces
  import opened VertexBuffer

  /** Float.toInt(): truncation toward zero (not floor). */
  function Trunc(r: real): (t: int)
    ensures 0.0 <= r ==> 0 <= t && t as real <= r < t as real + 1.0
    ensures r < 0.0 ==> t <= 0 && t as real - 1.0 < r <= t as real
  {
    if r >= 0.0 then r.Floor else -((-r).Floor)
  }

  /** Kotlin's `n / 2` on Int: the quotient truncated toward zero. */
  function Half(n: int): (q: int)
    ensures 0 <= n ==> 0 <= n - 2 * q <= 1
    ensures n < 0 ==> -1 <= n - 2 * q <= 0
  {
    if n >= 0 then n / 2 else -((-n) / 2)
  }

  /** Tiles along one axis: the whole tiles that fit on the screen, plus two. */
  function Span(screen: int, tile: real): (n: int)
    requires tile > 0.0
    ensures screen >= 0 ==> n >= 2
  {
    Trunc(screen as real / tile) + 2
  }

  /** The sub-tile scroll: the centre minus its truncation. It lies in
      [0, 1) for a centre that is not negative, but truncation puts it in
      (-1, 0] for a negative one. */
  function Offset(center: real): (off: real)
    ensures center >= 0.0 ==> 0.0 <= off < 1.0
    ensures center < 0.0 ==> -1.0 < off <= 0.0
  {
    center - Trunc(center) as real
  }

  /** The map coordinate one before the window's first cell: half a span
      before the truncated centre. Map cell o + span/2, which the walk shows
      in window column span/2 - 1 (it adds 1 to every coordinate), plus the
      scroll offset is the centre itself. */
  function Origin(center: real, span: int): (o: int)
    ensures (o + Half(span)) as real + Offset(center) == center
  {
    Trunc(center) - Half(span)
  }

  /** What buildFaces works out before walking the cells. */
  datatype Window = Window(tileW: real, tileH: real,
                           across: int, down: int,
                           offsetX: real, offsetY: real,
                           upperLeftX: int, upperLeftY: int)

  /** The visible window for a screen, a tile size in pixels, a zoom and a
      camera centre. */
  function WindowOf(screenW: int, screenH: int, tileWidth: int, tileHeight: int,
                    zoom: real, centerX: real, centerY: real): (w: Window)
    requires tileWidth > 0 && tileHeight > 0 && zoom > 0.0
    ensures w.tileW > 0.0 && w.tileH > 0.0
    ensures screenW >= 0 ==> w.across >= 2
    ensures screenH >= 0 ==> w.down >= 2
    ensures (w.upperLeftX + Half(w.across)) as real + w.offsetX == centerX
    ensures (w.upperLeftY + Half(w.down)) as real + w.offsetY == centerY
  {
    var tileW := tileWidth as real * zoom;
    var tileH := tileHeight as real * zoom;
    var across := Span(screenW, tileW);
    var down := Span(screenH, tileH);
    Window(tileW, tileH, across, down, Offset(centerX), Offset(centerY),
           Origin(centerX, across), Origin(centerY, down))
  }

  /** The number of rows the walk visits (`repeat` of a negative count does
      nothing). */
  function Rows(w: Window): nat {
    if w.down > 0 then w.down else 0
  }

  /** The window with its last row and column left out still reaches past
      the screen edge: the +2 never under-covers. */
  lemma SpanCoversScreen(screen: int, tile: real)
    requires tile > 0.0
    ensures (Span(screen, tile) - 1) as real * tile > screen as real
  {
    var q := screen as real / tile;
    var t := Trunc(q);
    assert (Span(screen, tile) - 1) as real == t as real + 1.0;
    assert q < t as real + 1.0;
    assert q * tile == screen as real;
    ScaleStrict(q, t as real + 1.0, tile);
  }

  /** Scaling by a positive tile size keeps a strict order. */
  lemma ScaleStrict(a: real, b: real, c: real)
    requires a < b && c > 0.0
    ensures a * c < b * c
  {
    assert b * c - a * c == (b - a) * c;
  }

  /** Scaling by a positive tile size keeps an order. */
  lemma ScaleWeak(a: real, b: real, c: real)
    requires a <= b && c > 0.0
    ensures a * c <= b * c
  {
    assert b * c - a * c == (b - a) * c;
  }

  /** For a centre that is not negative, every pixel position from 0 to the
      screen edge lies inside the quad of some cell of the window. */
  lemma AxisCovered(screen: int, tile: real, center: real, s: real) returns (d: int)
    requires tile > 0.0 && center >= 0.0
    requires 0.0 <= s <= screen as real
    ensures 0 <= d < Span(screen, tile)
    ensures (d as real - Offset(center)) * tile <= s < (d as real - Offset(center)) * tile + tile
  {
    var off := Offset(center);
    var q := screen as real / tile;
    var p := s / tile;
    DivideByTile(s, screen as real, tile);
    d := (p + off).Floor;
    assert d as real <= p + off < d as real + 1.0;
    assert Trunc(q) as real > q - 1.0;
    assert Span(screen, tile) == Trunc(q) + 2;
    PlaceInTile(d as real - off, s, tile);
  }

  /** Positions in pixels and in tiles: s / tile scales back to s, and the
      order of s and the screen width is kept. */
  lemma DivideByTile(s: real, screen: real, tile: real)
    requires tile > 0.0 && s <= screen
    ensures (s / tile) * tile == s
    ensures s / tile <= screen / tile
  {
  }

  /** A pixel position s whose tile position s / tile lies in [a, a + 1)
      is within the tile that starts at pixel a * tile. */
  lemma PlaceInTile(a: real, s: real, tile: real)
    requires tile > 0.0 && a <= s / tile < a + 1.0
    ensures a * tile <= s < a * tile + tile
  {
    TileStartsBefore(a, s, tile);
    TileEndsAfter(a, s, tile);
  }

  lemma TileStartsBefore(a: real, s: real, tile: real)
    requires tile > 0.0 && a <= s / tile
    ensures a * tile <= s
  {
    var p := s / tile;
    assert p * tile == s;
    ScaleWeak(a, p, tile);
  }

  lemma TileEndsAfter(a: real, s: real, tile: real)
    requires tile > 0.0 && s / tile < a + 1.0
    ensures s < a * tile + tile
  {
    var p := s / tile;
    ScaleStrict(p, a + 1.0, tile);
    assert p * tile < (a + 1.0) * tile;
    assert (a + 1.0) * tile == a * tile + tile;
    assert p * tile == s;
    assert s < (a + 1.0) * tile;
  }

  /** For a negative centre that is not a whole number the first cell's quad
      starts right of the screen edge: the strip before it is drawn by no
      quad of the window. */
  lemma NegativeCentreLeavesStrip(tile: real, center: real, d: int)
    requires tile > 0.0 && center < 0.0 && Trunc(center) as real != center
    requires d >= 0
    ensures (d as real - Offset(center)) * tile > 0.0
  {
    assert Offset(center) < 0.0;
    ScaleStrict(0.0, d as real - Offset(center), tile);
  }

  /** The quad of a map column does not depend on how the centre splits
      into whole and fractional part: it moves with the centre, without a
      jump when the centre crosses a whole number. */
  lemma QuadFollowsCentre(screen: int, tile: real, center: real, mapX: int)
    requires tile > 0.0
    ensures var d := mapX - Origin(center, Span(screen, tile)) - 1;
            (d as real - Offset(center)) * tile
              == (mapX as real - center + (Half(Span(screen, tile)) - 1) as real) * tile
  {
    var d := mapX - Origin(center, Span(screen, tile)) - 1;
    assert d as real - Offset(center) == mapX as real - center + (Half(Span(screen, tile)) - 1) as real;
  }

  /** A cell that yields a quad: its place in the window, its tile code and
      the light of its map cell. */
  datatype Cell = Cell(dx: int, dy: int, code: int, light: real)

  function MapX(w: Window, dx: int): int { w.upperLeftX + dx + 1 }
  function MapY(w: Window, dy: int): int { w.upperLeftY + dy + 1 }

  /** Cell (dx, dy) of the window comes before (dx', dy') in the walk. */
  predicate Before(dx: int, dy: int, dx': int, dy': int) {
    dy < dy' || (dy == dy' && dx < dx')
  }

  /** The cells of `layer` that hold a tile among the first `dy` full rows
      and the first `dx` cells of row `dy`, in the order of the walk: rows
      outer, columns inner. */
  function Visible(w: Window, m: MapView, layer: int, dy: nat, dx: nat): (v: seq<Cell>)
    requires 0 <= w.across && dx <= w.across
    ensures forall i :: 0 <= i < |v| ==> 0 <= v[i].dx < w.across && 0 <= v[i].dy <= dy
    decreases dy, dx
  {
    if dx == 0 then
      if dy == 0 then [] else Visible(w, m, layer, dy - 1, w.across)
    else
      var rest := Visible(w, m, layer, dy, dx - 1);
      match m.tile(MapX(w, dx - 1), MapY(w, dy), layer)
      case None => rest
      case Some(code) => rest + [Cell(dx - 1, dy, code, m.light(MapX(w, dx - 1), MapY(w, dy)))]
  }

  /** The walk of a row ends where the next row starts. */
  lemma NextRow(w: Window, m: MapView, layer: int, dy: nat)
    requires 0 <= w.across
    ensures Visible(w, m, layer, dy + 1, 0) == Visible(w, m, layer, dy, w.across)
  {
  }

  /** Every listed cell is inside the walked part of the window and holds
      the tile and light the map gives for it. */
  lemma {:induction false} VisibleSound(w: Window, m: MapView, layer: int, dy: nat, dx: nat)
    requires 0 <= w.across && dx <= w.across
    ensures forall c :: c in Visible(w, m, layer, dy, dx) ==>
      0 <= c.dx < w.across && 0 <= c.dy && Before(c.dx, c.dy, dx, dy)
      && m.tile(MapX(w, c.dx), MapY(w, c.dy), layer) == Some(c.code)
      && c.light == m.light(MapX(w, c.dx), MapY(w, c.dy))
    decreases dy, dx
  {
    if dx == 0 {
      if dy > 0 { VisibleSound(w, m, layer, dy - 1, w.across); }
    } else {
      VisibleSound(w, m, layer, dy, dx - 1);
    }
  }

  /** Every cell of the walked part that holds a tile is listed. */
  lemma {:induction false} VisibleComplete(w: Window, m: MapView, layer: int, dy: nat, dx: nat, cx: int, cy: int)
    requires 0 <= w.across && dx <= w.across
    requires 0 <= cx < w.across && 0 <= cy && Before(cx, cy, dx, dy)
    requires m.tile(MapX(w, cx), MapY(w, cy), layer).Some?
    ensures Cell(cx, cy, m.tile(MapX(w, cx), MapY(w, cy), layer).value, m.light(MapX(w, cx), MapY(w, cy)))
              in Visible(w, m, layer, dy, dx)
    decreases dy, dx
  {
    if dx == 0 {
      VisibleComplete(w, m, layer, dy - 1, w.across, cx, cy);
    } else if cy == dy && cx == dx - 1 {
    } else {
      VisibleComplete(w, m, layer, dy, dx - 1, cx, cy);
    }
  }

  /** Cells listed in strictly increasing row, then column. */
  predicate InWalkOrder(v: seq<Cell>) {
    forall i, j :: 0 <= i < j < |v| ==> Before(v[i].dx, v[i].dy, v[j].dx, v[j].dy)
  }

  /** The list follows the walk: strictly increasing row, then column. */
  lemma {:induction false} VisibleOrdered(w: Window, m: MapView, layer: int, dy: nat, dx: nat)
    requires 0 <= w.across && dx <= w.across
    ensures InWalkOrder(Visible(w, m, layer, dy, dx))
    decreases dy, dx
  {
    if dx == 0 {
      if dy > 0 {
        VisibleOrdered(w, m, layer, dy - 1, w.across);
        assert Visible(w, m, layer, dy, 0) == Visible(w, m, layer, dy - 1, w.across);
      }
    } else {
      VisibleOrdered(w, m, layer, dy, dx - 1);
      VisibleSound(w, m, layer, dy, dx - 1);
      var rest := Visible(w, m, layer, dy, dx - 1);
      match m.tile(MapX(w, dx - 1), MapY(w, dy), layer)
      case None =>
        assert Visible(w, m, layer, dy, dx) == rest;
      case Some(code) =>
        var c := Cell(dx - 1, dy, code, m.light(MapX(w, dx - 1), MapY(w, dy)));
        var v := rest + [c];
        assert Visible(w, m, layer, dy, dx) == v;
        forall i, j | 0 <= i < j < |v|
          ensures Before(v[i].dx, v[i].dy, v[j].dx, v[j].dy)
        {
          assert v[i] == rest[i] && rest[i] in rest;
          if j < |rest| {
            assert v[j] == rest[j];
            assert InWalkOrder(rest);
          }
        }
    }
  }

  /** At most one quad per walked cell. */
  lemma {:induction false} VisibleCount(w: Window, m: MapView, layer: int, dy: nat, dx: nat)
    requires 0 <= w.across && dx <= w.across
    ensures |Visible(w, m, layer, dy, dx)| <= dy * w.across + dx
    decreases dy, dx
  {
    if dx == 0 {
      if dy > 0 {
        VisibleCount(w, m, layer, dy - 1, w.across);
        assert (dy - 1) * w.across + w.across == dy * w.across;
      }
    } else {
      VisibleCount(w, m, layer, dy, dx - 1);
    }
  }

  /** A shorter walk lists a prefix of what a longer walk lists. */
  lemma {:induction false} VisiblePrefix(w: Window, m: MapView, layer: int, dy: nat, dx: nat, dy': nat, dx': nat)
    requires 0 <= w.across && dx <= w.across && dx' <= w.across
    requires dy < dy' || (dy == dy' && dx <= dx')
    ensures Visible(w, m, layer, dy, dx) <= Visible(w, m, layer, dy', dx')
    decreases dy', dx'
  {
    if dy == dy' && dx == dx' {
    } else if dx' == 0 {
      VisiblePrefix(w, m, layer, dy, dx, dy' - 1, w.across);
    } else {
      VisiblePrefix(w, m, layer, dy, dx, dy', dx' - 1);
    }
  }

  /** Why a layer could not be filled: a tile code the tileset's getters
      throw on, or an add to a full buffer (the overflowing put). */
  datatype Fault = UnknownTileCode(code: int) | CapacityExceeded

  /** The quads appended so far and the fault that stopped the walk, if one
      did. */
  datatype Fill = Fill(quads: seq<Quad>, fault: Option<Fault>)

  /** The quad of a cell: its window position shifted back by the scroll
      offset, one tile in size, the tile's texture rectangle and the light. */
  function QuadOf(w: Window, c: Cell, r: TexRect): (q: Quad)
    ensures q.w == w.tileW && q.h == w.tileH && q.light == c.light
    ensures (q.tx, q.ty, q.tw, q.th) == (r.u, r.v, r.w, r.h)
  {
    Quad((c.dx as real - w.offsetX) * w.tileW, (c.dy as real - w.offsetY) * w.tileH,
         w.tileW, w.tileH, r.u, r.v, r.w, r.h, c.light)
  }

  /** Quads of neighbouring cells touch: the next column's quad starts
      where this one ends, and so does the next row's, with neither gap nor
      overlap. */
  lemma QuadsAbut(w: Window, c: Cell, r: TexRect, c': Cell, r': TexRect)
    ensures c'.dx == c.dx + 1 ==> QuadOf(w, c', r').x == QuadOf(w, c, r).x + QuadOf(w, c, r).w
    ensures c'.dy == c.dy + 1 ==> QuadOf(w, c', r').y == QuadOf(w, c, r).y + QuadOf(w, c, r).h
  {
  }

  /** Appending the quads of `cells` in order to a cleared buffer of
      capacity `cap`; the first fault stops it and nothing is appended
      after it. */
  function Emit(w: Window, ts: TilesetView, cells: seq<Cell>, cap: nat): (f: Fill)
    ensures |f.quads| <= cap && |f.quads| <= |cells|
  {
    if cells == [] then Fill([], None)
    else
      var f := Emit(w, ts, cells[..|cells| - 1], cap);
      var c := cells[|cells| - 1];
      if f.fault.Some? then f
      else match ts.rect(c.code)
        case None => Fill(f.quads, Some(UnknownTileCode(c.code)))
        case Some(r) =>
          if |f.quads| == cap then Fill(f.quads, Some(CapacityExceeded))
          else Fill(f.quads + [QuadOf(w, c, r)], None)
  }

  /** One more step of the walk when it has not stopped: the cell's tile
      code is looked up, then its quad is appended if there is room. */
  lemma EmitStep(w: Window, ts: TilesetView, cells: seq<Cell>, c: Cell, cap: nat, qs: seq<Quad>)
    requires Emit(w, ts, cells, cap) == Fill(qs, None)
    ensures Emit(w, ts, cells + [c], cap) ==
      match ts.rect(c.code)
      case None => Fill(qs, Some(UnknownTileCode(c.code)))
      case Some(r) =>
        if |qs| == cap then Fill(qs, Some(CapacityExceeded)) else Fill(qs + [QuadOf(w, c, r)], None)
  {
    assert (cells + [c])[..|cells + [c]| - 1] == cells;
  }

  /** Once a fault has stopped the walk, later cells change nothing. */
  lemma {:induction false} EmitSticky(w: Window, ts: TilesetView, cells: seq<Cell>, more: seq<Cell>, cap: nat)
    requires Emit(w, ts, cells, cap).fault.Some?
    ensures Emit(w, ts, cells + more, cap) == Emit(w, ts, cells, cap)
    decreases |more|
  {
    if more != [] {
      var n := |more| - 1;
      EmitSticky(w, ts, cells, more[..n], cap);
      var all := cells + more;
      assert all[..|all| - 1] == cells + more[..n];
      assert Emit(w, ts, all[..|all| - 1], cap).fault.Some?;
      assert Emit(w, ts, all, cap) == Emit(w, ts, all[..|all| - 1], cap);
    } else {
      assert cells + more == cells;
    }
  }

  /** A fault stops the walk of the whole layer: what the layer ends with
      is what the walk held when the fault happened. */
  lemma StoppedWalk(w: Window, m: MapView, ts: TilesetView, layer: int, cap: nat, dy: nat, dx: nat)
    requires 0 <= w.across && dx <= w.across && dy < Rows(w)
    requires Emit(w, ts, Visible(w, m, layer, dy, dx), cap).fault.Some?
    ensures LayerFill(w, m, ts, layer, cap) == Emit(w, ts, Visible(w, m, layer, dy, dx), cap)
  {
    var done := Visible(w, m, layer, dy, dx);
    var all := Visible(w, m, layer, Rows(w), 0);
    VisiblePrefix(w, m, layer, dy, dx, Rows(w), 0);
    EmitSticky(w, ts, done, all[|done|..], cap);
    assert done + all[|done|..] == all;
  }

  /** The walk fills the layer without fault exactly when every listed tile
      code is known to the tileset and the cells fit in the buffer; then
      there is one quad per cell, in the same order. */
  lemma {:induction false} EmitComplete(w: Window, ts: TilesetView, cells: seq<Cell>, cap: nat)
    ensures Emit(w, ts, cells, cap).fault.None? <==>
      (forall i :: 0 <= i < |cells| ==> ts.rect(cells[i].code).Some?) && |cells| <= cap
    ensures Emit(w, ts, cells, cap).fault.None? ==>
      |Emit(w, ts, cells, cap).quads| == |cells| &&
      forall i :: 0 <= i < |cells| ==>
        Emit(w, ts, cells, cap).quads[i] == QuadOf(w, cells[i], ts.rect(cells[i].code).value)
    decreases |cells|
  {
    if cells != [] {
      var n := |cells| - 1;
      var init := cells[..n];
      EmitComplete(w, ts, init, cap);
      assert forall i :: 0 <= i < n ==> init[i] == cells[i];
      var f := Emit(w, ts, init, cap);
      if f.fault.Some? {
        // Some earlier cell already failed, so the right-hand side fails too.
        if forall i :: 0 <= i < n ==> ts.rect(init[i].code).Some? {
          assert |init| > cap;
        }
      }
    }
  }

  /** What buildFaces leaves in the buffer of `layer`. */
  function LayerFill(w: Window, m: MapView, ts: TilesetView, layer: int, cap: nat): (f: Fill)
    requires 0 <= w.across
    ensures |f.quads| <= cap
  {
    Emit(w, ts, Visible(w, m, layer, Rows(w), 0), cap)
  }

  /** A layer that fills without fault holds one quad per cell of the
      window with a tile, hence at most across * rows of them, and none at
      all for a layer without tiles. */
  lemma LayerTileCount(w: Window, m: MapView, ts: TilesetView, layer: int, cap: nat)
    requires 0 <= w.across
    requires LayerFill(w, m, ts, layer, cap).fault.None?
    ensures |LayerFill(w, m, ts, layer, cap).quads| == |Visible(w, m, layer, Rows(w), 0)|
    ensures |LayerFill(w, m, ts, layer, cap).quads| <= Rows(w) * w.across
  {
    EmitComplete(w, ts, Visible(w, m, layer, Rows(w), 0), cap);
    VisibleCount(w, m, layer, Rows(w), 0);
  }

  /** A map with no tile anywhere leaves every layer empty and never fails. */
  lemma {:induction false} EmptyMapEmptyLayer(w: Window, m: MapView, ts: TilesetView, layer: int, cap: nat, dy: nat, dx: nat)
    requires 0 <= w.across && dx <= w.across
    requires forall x, y, l :: m.tile(x, y, l) == None
    ensures Visible(w, m, layer, dy, dx) == []
    ensures Emit(w, ts, Visible(w, m, layer, dy, dx), cap) == Fill([], None)
    decreases dy, dx
  {
    if dx == 0 {
      if dy > 0 { EmptyMapEmptyLayer(w, m, ts, layer, cap, dy - 1, w.across); }
    } else {
      EmptyMapEmptyLayer(w, m, ts, layer, cap, dy, dx - 1);
      assert m.tile(MapX(w, dx - 1), MapY(w, dy), layer) == None;
    }
  }
}
