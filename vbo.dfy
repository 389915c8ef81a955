/** The per-layer vertex buffer (AREView.VBO): a fixed-capacity float buffer
    that tiles are appended to, six vertices of five floats per tile. */
module VertexBuffer {

  const VertsPerTile: nat := 6
  /** position.x, position.y, texcoord.u, texcoord.v, light */
  const FloatsPerVert: nat := 5
  const FloatsPerTile: nat := 30

  /** The nine arguments of `add`: the quad on screen, its texture rectangle
      and its light. */
  datatype Quad = Quad(x: real, y: real, w: real, h: real,
                       tx: real, ty: real, tw: real, th: real,
                       light: real)

  /** The floats `add` stages for one tile, in buffer order: the triangles
      top-left, top-right, bottom-right and top-left, bottom-right, bottom-left. */
  function QuadFloats(q: Quad): (r: seq<real>)
    ensures |r| == FloatsPerTile
  {
    [ q.x,       q.y,       q.tx,        q.ty,        q.light,
      q.x + q.w, q.y,       q.tx + q.tw, q.ty,        q.light,
      q.x + q.w, q.y + q.h, q.tx + q.tw, q.ty + q.th, q.light,
      q.x,       q.y,       q.tx,        q.ty,        q.light,
      q.x + q.w, q.y + q.h, q.tx + q.tw, q.ty + q.th, q.light,
      q.x,       q.y + q.h, q.tx,        q.ty + q.th, q.light ]
  }

  /** The floats of several tiles, one after the other. */
  function Floats(qs: seq<Quad>): (r: seq<real>)
    ensures |r| == FloatsPerTile * |qs|
  {
    if qs == [] then [] else Floats(qs[..|qs| - 1]) + QuadFloats(qs[|qs| - 1])
  }

  /** Which corner of the quad vertex k of the triangle list stands on, as
      (right edge?, bottom edge?): TL, TR, BR, TL, BR, BL. */
  function Corner(k: nat): (bool, bool)
    requires k < VertsPerTile
  {
    [(false, false), (true, false), (true, true),
     (false, false), (true, true), (false, true)][k]
  }

  /** A vertex standing on a corner: the position and the texture coordinate
      move to the same edges, and the light is the quad's. */
  function CornerVertex(q: Quad, right: bool, bottom: bool): seq<real> {
    [ q.x + (if right then q.w else 0.0),
      q.y + (if bottom then q.h else 0.0),
      q.tx + (if right then q.tw else 0.0),
      q.ty + (if bottom then q.th else 0.0),
      q.light ]
  }

  /** The k-th vertex (five floats) of a tile's floats. */
  function VertexOf(s: seq<real>, k: nat): seq<real>
    requires k < VertsPerTile && |s| == FloatsPerTile
  {
    s[FloatsPerVert * k .. FloatsPerVert * k + FloatsPerVert]
  }

  /** Every vertex `add` writes is the corner vertex of its triangle-list
      slot; so positions and texture coordinates always match corners. */
  lemma QuadLayout(q: Quad, k: nat)
    requires k < VertsPerTile
    ensures VertexOf(QuadFloats(q), k) == CornerVertex(q, Corner(k).0, Corner(k).1)
  {
    var s := QuadFloats(q);
    var c := Corner(k);
    assert VertexOf(s, k) == s[5 * k .. 5 * k + 5];
    if k == 0 { assert c == (false, false); }
    else if k == 1 { assert c == (true, false); }
    else if k == 2 { assert c == (true, true); }
    else if k == 3 { assert c == (false, false); }
    else if k == 4 { assert c == (true, true); }
    else { assert c == (false, true); }
    forall i | 0 <= i < FloatsPerVert
      ensures VertexOf(s, k)[i] == CornerVertex(q, c.0, c.1)[i]
    {
      assert VertexOf(s, k)[i] == s[5 * k + i];
    }
  }

  /** The two triangles share the diagonal TL-BR (vertex 3 repeats vertex 0
      and vertex 4 repeats vertex 2) and the light is the same in all six
      vertices. */
  lemma QuadSharesDiagonal(q: Quad)
    ensures VertexOf(QuadFloats(q), 3) == VertexOf(QuadFloats(q), 0)
    ensures VertexOf(QuadFloats(q), 4) == VertexOf(QuadFloats(q), 2)
    ensures forall k :: 0 <= k < VertsPerTile ==> QuadFloats(q)[FloatsPerVert * k + 4] == q.light
  {
    QuadLayout(q, 0);
    QuadLayout(q, 2);
    QuadLayout(q, 3);
    QuadLayout(q, 4);
    forall k | 0 <= k < VertsPerTile
      ensures QuadFloats(q)[FloatsPerVert * k + 4] == q.light
    {
      QuadLayout(q, k);
      assert QuadFloats(q)[FloatsPerVert * k + 4] == VertexOf(QuadFloats(q), k)[4];
    }
  }

  /** The tile at index i of several tiles occupies floats [30*i, 30*i+30). */
  lemma {:induction false} FloatsAt(qs: seq<Quad>, i: nat)
    requires i < |qs|
    ensures Floats(qs)[FloatsPerTile * i .. FloatsPerTile * i + FloatsPerTile] == QuadFloats(qs[i])
  {
    var n := |qs| - 1;
    var a, b := Floats(qs[..n]), QuadFloats(qs[n]);
    var lo := FloatsPerTile * i;
    if i < n {
      assert a[lo..lo + FloatsPerTile] == QuadFloats(qs[i]) by {
        FloatsAt(qs[..n], i);
        assert qs[..n][i] == qs[i];
      }
      assert Floats(qs)[lo..lo + FloatsPerTile] == a[lo..lo + FloatsPerTile] by {
        assert Floats(qs) == a + b;
        SliceOfPrefix(a, b, lo, lo + FloatsPerTile);
      }
    } else {
      assert Floats(qs) == a + b;
      assert |a| == lo && |b| == FloatsPerTile;
      assert (a + b)[|a|..|a| + |b|] == b;
    }
  }

  lemma SliceOfPrefix(a: seq<real>, b: seq<real>, lo: nat, hi: nat)
    requires lo <= hi <= |a|
    ensures (a + b)[lo..hi] == a[lo..hi]
  {
  }

  class VBO {
    const maxTiles: nat
    /** The float buffer, allocated once with room for maxTiles tiles. */
    const verts: array<real>
    /** Tiles written since the last clear. */
    var tileCount: nat

    ghost predicate Valid()
      reads this
    {
      verts.Length == FloatsPerTile * maxTiles && tileCount <= maxTiles
    }

    /** The floats the draw call reads: those of the tiles written so far. */
    ghost function Contents(): (s: seq<real>)
      reads this, verts
      requires Valid()
      ensures |s| == FloatsPerTile * tileCount
    {
      verts[..FloatsPerTile * tileCount]
    }

    /** A direct buffer of maxTiles * 6 * 5 floats, zero-filled. */
    constructor (maxTiles: nat)
      ensures Valid() && fresh(verts)
      ensures this.maxTiles == maxTiles && tileCount == 0
      ensures forall j :: 0 <= j < verts.Length ==> verts[j] == 0.0
    {
      this.maxTiles := maxTiles;
      verts := new real[FloatsPerTile * maxTiles](_ => 0.0);
      tileCount := 0;
    }

    /** Rewinds the cursor; the stored floats stay as they were. */
    method Clear()
      requires Valid()
      modifies this
      ensures Valid() && tileCount == 0 && Contents() == []
      ensures verts[..] == old(verts[..])
    {
      tileCount := 0;
    }

    /** Writes one tile at the cursor and advances it. When the buffer is
        full the bulk put overflows before anything is written (ok == false)
        and nothing changes. */
    method Add(x: real, y: real, w: real, h: real,
               tx: real, ty: real, tw: real, th: real, light: real) returns (ok: bool)
      requires Valid()
      modifies this, verts
      ensures Valid()
      ensures ok <==> old(tileCount) < maxTiles
      ensures ok ==> tileCount == old(tileCount) + 1
      ensures !ok ==> tileCount == old(tileCount)
      ensures ok ==> Contents() == old(Contents()) + QuadFloats(Quad(x, y, w, h, tx, ty, tw, th, light))
      ensures ok ==> verts[..] == old(verts[..])[..FloatsPerTile * old(tileCount)]
                                  + QuadFloats(Quad(x, y, w, h, tx, ty, tw, th, light))
                                  + old(verts[..])[FloatsPerTile * old(tileCount) + FloatsPerTile..]
      ensures !ok ==> verts[..] == old(verts[..])
    {
      if tileCount == maxTiles {
        return false;
      }
      var addV := QuadFloats(Quad(x, y, w, h, tx, ty, tw, th, light));
      var base := FloatsPerTile * tileCount;
      // position(tileCount * addV.size), then the bulk put of addV
      for i := 0 to FloatsPerTile
        modifies verts
        invariant forall j :: 0 <= j < verts.Length ==>
          verts[j] == if base <= j < base + i then addV[j - base] else old(verts[j])
      {
        verts[base + i] := addV[i];
      }
      tileCount := tileCount + 1;
      ok := true;
      assert verts[..] == old(verts[..])[..base] + addV + old(verts[..])[base + FloatsPerTile..];
      assert Contents() == old(Contents()) + addV;
    }
  }
}
