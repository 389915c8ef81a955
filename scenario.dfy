/** A worked frame: a 2x2 single-layer map with codes 1 to 4, tiles of
    10x10 pixels at zoom 1, the camera on (0.5, 0.5) and a 20x20 screen. */
module Scenario {
  import opened Wrappers
  import opened Interfaces
  import opened VertexBuffer
  import opened Viewport

  /** Rows [1, 2] and [3, 4], row-major by y then x. */
  function GridTile(x: int, y: int, layer: int): Option<int> {
    if 0 <= x < 2 && 0 <= y < 2 then Some(2 * y + x + 1) else None
  }

  function GridMap(): MapView {
    MapView(1, GridTile, (x, y) => 1.0)
  }

  /** Code n maps to the strip (n/4, 0, 1/4, 1). */
  function QuarterStrips(): TilesetView {
    TilesetView(10, 10, code => Some(TexRect(code as real * 0.25, 0.0, 0.25, 1.0)))
  }

  /** Four tiles across and down, the window starting one cell before
      (-1, -1), and the four map cells listed in walk order from window
      cell (1, 1). */
  lemma ScenarioCells()
    ensures WindowOf(20, 20, 10, 10, 1.0, 0.5, 0.5) == Window(10.0, 10.0, 4, 4, 0.5, 0.5, -2, -2)
    ensures Visible(Window(10.0, 10.0, 4, 4, 0.5, 0.5, -2, -2), GridMap(), 0, 4, 0) ==
      [Cell(1, 1, 1, 1.0), Cell(2, 1, 2, 1.0), Cell(1, 2, 3, 1.0), Cell(2, 2, 4, 1.0)]
  {
    assert Trunc(2.0) == 2 && Trunc(0.5) == 0 && Half(4) == 2;
    var w := Window(10.0, 10.0, 4, 4, 0.5, 0.5, -2, -2);
    var m := GridMap();
    assert Visible(w, m, 0, 0, 4) == [];
    assert Visible(w, m, 0, 1, 2) == [Cell(1, 1, 1, 1.0)];
    assert Visible(w, m, 0, 1, 4) == [Cell(1, 1, 1, 1.0), Cell(2, 1, 2, 1.0)];
    assert Visible(w, m, 0, 2, 2) == [Cell(1, 1, 1, 1.0), Cell(2, 1, 2, 1.0), Cell(1, 2, 3, 1.0)];
    assert Visible(w, m, 0, 2, 4) ==
      [Cell(1, 1, 1, 1.0), Cell(2, 1, 2, 1.0), Cell(1, 2, 3, 1.0), Cell(2, 2, 4, 1.0)];
    assert Visible(w, m, 0, 3, 4) == Visible(w, m, 0, 2, 4);
  }

  /** The layer's buffer then holds exactly four tiles, codes 1 to 4, and
      the first tile's six vertices are (5,5), (15,5), (15,15), (5,5),
      (15,15), (5,15) with texture strip [0.25, 0.5] x [0, 1] and light 1. */
  lemma ScenarioBuffer(cap: nat)
    requires cap >= 4
    ensures var w := WindowOf(20, 20, 10, 10, 1.0, 0.5, 0.5);
      var f := LayerFill(w, GridMap(), QuarterStrips(), 0, cap);
      && f.fault == None
      && f.quads == [Quad(5.0, 5.0, 10.0, 10.0, 0.25, 0.0, 0.25, 1.0, 1.0),
                     Quad(15.0, 5.0, 10.0, 10.0, 0.5, 0.0, 0.25, 1.0, 1.0),
                     Quad(5.0, 15.0, 10.0, 10.0, 0.75, 0.0, 0.25, 1.0, 1.0),
                     Quad(15.0, 15.0, 10.0, 10.0, 1.0, 0.0, 0.25, 1.0, 1.0)]
      && Floats(f.quads)[..30] ==
           [ 5.0,  5.0, 0.25, 0.0, 1.0,
            15.0,  5.0, 0.5,  0.0, 1.0,
            15.0, 15.0, 0.5,  1.0, 1.0,
             5.0,  5.0, 0.25, 0.0, 1.0,
            15.0, 15.0, 0.5,  1.0, 1.0,
             5.0, 15.0, 0.25, 1.0, 1.0 ]
  {
    ScenarioCells();
    var w := Window(10.0, 10.0, 4, 4, 0.5, 0.5, -2, -2);
    var cells := Visible(w, GridMap(), 0, 4, 0);
    var ts := QuarterStrips();
    EmitComplete(w, ts, cells, cap);
    var qs := LayerFill(w, GridMap(), ts, 0, cap).quads;
    assert qs[0] == QuadOf(w, cells[0], TexRect(0.25, 0.0, 0.25, 1.0));
    FloatsAt(qs, 0);
  }
}
