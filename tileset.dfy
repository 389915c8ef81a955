/** ASCIITileset: tile definitions kept in a list indexed by tile code,
    and the texture atlas that packs one glyph strip per definition
    side by side. */
module Tilesets {
  import opened Wrappers
  import opened Interfaces

  /** One tile definition as loaded: its code, the glyph's code point
      (the source's `char`), its colours, and its texture strip once laid
      out. */
  datatype TileDef = TileDef(
    id: int,
    glyph: int,
    fgColor: string,
    bgColor: string,
    texX: Option<real>,
    texY: Option<real>,
    texW: Option<real>,
    texH: Option<real>)

  /** The texture atlas, by its size in pixels. */
  datatype Bitmap = Bitmap(width: int, height: int)

  /** What getTile packs: the atlas and the strip of one tile. */
  datatype Tile = Tile(texture: Bitmap, x: real, y: real, width: real, height: real)

  /** Why initialize stops: an insert at an index outside [0, size] (the
      position in the loaded list is kept), or an atlas whose width or
      height is not positive. */
  datatype InitFault = IndexOutOfRange(at: nat) | BadBitmapSize

  /** The list after inserting each loaded definition at index `id`, and
      the position of the first insert that throws, if any; nothing is
      inserted after it. */
  datatype Insertion = Insertion(defs: seq<TileDef>, failedAt: Option<nat>)

  function InsertAll(raw: seq<TileDef>): (r: Insertion)
    ensures |r.defs| <= |raw|
    ensures r.failedAt.Some? ==> r.failedAt.value < |raw| && |r.defs| == r.failedAt.value
    ensures r.failedAt.None? ==> |r.defs| == |raw|
  {
    if |raw| == 0 then Insertion([], None)
    else
      var prev := InsertAll(raw[..|raw| - 1]);
      var d := raw[|raw| - 1];
      if prev.failedAt.Some? then prev
      else if 0 <= d.id <= |prev.defs| then Insertion(prev.defs[..d.id] + [d] + prev.defs[d.id..], None)
      else Insertion(prev.defs, Some(|raw| - 1))
  }

  /** Once an insert has thrown, later definitions change nothing. */
  lemma {:induction false} InsertStops(raw: seq<TileDef>, k: nat)
    requires k <= |raw| && InsertAll(raw[..k]).failedAt.Some?
    ensures InsertAll(raw) == InsertAll(raw[..k])
    decreases |raw|
  {
    if k < |raw| {
      assert raw[..|raw| - 1][..k] == raw[..k];
      InsertStops(raw[..|raw| - 1], k);
    } else {
      assert raw[..k] == raw;
    }
  }

  /** Every insert succeeds exactly when the definition at position i
      carries an id between 0 and i. */
  lemma {:induction false} InsertSucceeds(raw: seq<TileDef>)
    ensures InsertAll(raw).failedAt.None? <==> forall i :: 0 <= i < |raw| ==> 0 <= raw[i].id <= i
  {
    if |raw| > 0 {
      var init := raw[..|raw| - 1];
      InsertSucceeds(init);
      assert forall i :: 0 <= i < |init| ==> init[i] == raw[i];
    }
  }

  /** Inserting only reorders: the list holds exactly the loaded
      definitions. */
  lemma {:induction false} InsertPermutes(raw: seq<TileDef>)
    requires InsertAll(raw).failedAt.None?
    ensures multiset(InsertAll(raw).defs) == multiset(raw)
  {
    if |raw| > 0 {
      var init := raw[..|raw| - 1];
      var prev := InsertAll(init).defs;
      var d := raw[|raw| - 1];
      InsertPermutes(init);
      assert raw == init + [d];
      InsertKeepsMultiset(prev, d.id, d);
    }
  }

  lemma InsertKeepsMultiset(s: seq<TileDef>, i: int, d: TileDef)
    requires 0 <= i <= |s|
    ensures multiset(s[..i] + [d] + s[i..]) == multiset(s) + multiset{d}
  {
    assert s == s[..i] + s[i..];
  }

  /** A failed insert: the list is the completed insertion of the
      definitions before the failing one, and that one's id lies outside
      [0, size of that list]. */
  lemma {:induction false} InsertFailure(raw: seq<TileDef>)
    requires InsertAll(raw).failedAt.Some?
    ensures var r := InsertAll(raw); var k := r.failedAt.value;
      && InsertAll(raw[..k]) == Insertion(r.defs, None)
      && !(0 <= raw[k].id <= |r.defs|)
  {
    var init := raw[..|raw| - 1];
    if InsertAll(init).failedAt.Some? {
      InsertFailure(init);
      var k := InsertAll(init).failedAt.value;
      assert init[..k] == raw[..k];
    } else {
      assert init == raw[..|raw| - 1];
    }
  }

  /** Every id in a completed list is a position of the list. */
  lemma {:induction false} InsertedIdsInRange(raw: seq<TileDef>)
    requires InsertAll(raw).failedAt.None?
    ensures forall d :: d in InsertAll(raw).defs ==> 0 <= d.id < |raw|
  {
    if |raw| > 0 {
      var init := raw[..|raw| - 1];
      var prev := InsertAll(init).defs;
      var d := raw[|raw| - 1];
      InsertedIdsInRange(init);
      assert InsertAll(raw).defs == prev[..d.id] + [d] + prev[d.id..];
      forall x | x in InsertAll(raw).defs
        ensures 0 <= x.id < |raw|
      {
        assert x in prev[..d.id] || x == d || x in prev[d.id..];
      }
    }
  }

  /** Definitions loaded with ids 0, 1, ..., n-1 in that order end up in
      the same order, so list position k holds id k. */
  lemma {:induction false} InsertInOrder(raw: seq<TileDef>)
    requires forall i :: 0 <= i < |raw| ==> raw[i].id == i
    ensures InsertAll(raw) == Insertion(raw, None)
  {
    if |raw| > 0 {
      var init := raw[..|raw| - 1];
      InsertInOrder(init);
      assert init + [raw[|raw| - 1]] == raw;
    }
  }

  /** The strip of one definition in an atlas of n strips: x from id/n,
      full height. */
  function Placed(d: TileDef, n: nat): (p: TileDef)
    requires n > 0
    ensures p.texX.Some? && p.texY.Some? && p.texW.Some? && p.texH.Some?
    ensures p.(texX := d.texX, texY := d.texY, texW := d.texW, texH := d.texH) == d
  {
    d.(texX := Some(Share(n) * d.id as real), texY := Some(0.0),
       texW := Some(Share(n)), texH := Some(1.0))
  }

  /** The width of one strip, 1/n of the atlas. */
  function Share(n: nat): (u: real)
    requires n > 0
    ensures u > 0.0 && u * n as real == 1.0
  {
    1.0 / n as real
  }

  /** Every definition of the list with its strip laid out. */
  function Laid(defs: seq<TileDef>): (r: seq<TileDef>)
    requires |defs| > 0
    ensures |r| == |defs|
    ensures forall k :: 0 <= k < |r| ==> r[k].id == defs[k].id && StripOf(r, k).Some?
  {
    seq(|defs|, k requires 0 <= k < |defs| => Placed(defs[k], |defs|))
  }

  lemma LaidAt(defs: seq<TileDef>, k: int)
    requires 0 <= k < |defs|
    ensures StripOf(Laid(defs), k) ==
      Some(TexRect(Share(|defs|) * defs[k].id as real, 0.0, Share(|defs|), 1.0))
  {
    assert Laid(defs)[k] == Placed(defs[k], |defs|);
  }

  /** A strip whose id is a position of the list lies inside the atlas:
      it starts at or after 0 and ends at (id+1)/n, at most 1. */
  lemma StripInAtlas(d: TileDef, n: nat)
    requires n > 0 && 0 <= d.id < n
    ensures var p := Placed(d, n);
      && 0.0 <= p.texX.value
      && p.texX.value + p.texW.value == (d.id + 1) as real / n as real
      && p.texX.value + p.texW.value <= 1.0
      && p.texY.value == 0.0 && p.texH.value == 1.0
  {
    var p := Placed(d, n);
    assert p.texX.value + p.texW.value == (d.id + 1) as real * Share(n);
  }

  /** Definitions with different ids get strips that do not overlap. */
  lemma StripsDisjoint(a: TileDef, b: TileDef, n: nat)
    requires n > 0 && a.id < b.id
    ensures Placed(a, n).texX.value + Placed(a, n).texW.value <= Placed(b, n).texX.value
  {
    var u := Share(n);
    assert (a.id + 1) as real <= b.id as real;
    assert (a.id + 1) as real * u <= b.id as real * u;
  }

  class ASCIITileset {
    const tileWidth: int
    const tileHeight: int
    /** The definitions by tile code. */
    var tileDefs: seq<TileDef>
    /** The atlas, once initialize has created it. */
    var texture: Option<Bitmap>

    constructor (tileWidth: int, tileHeight: int)
      ensures this.tileWidth == tileWidth && this.tileHeight == tileHeight
      ensures tileDefs == [] && texture == None
    {
      this.tileWidth := tileWidth;
      this.tileHeight := tileHeight;
      tileDefs := [];
      texture := None;
    }

    /** The tile size in pixels, as a (width, height) point. */
    function TileSize(): (p: (int, int))
      ensures p.0 == tileWidth && p.1 == tileHeight
    {
      (tileWidth, tileHeight)
    }

    /** initialize, given the definitions the resource file holds: the list
        is emptied and refilled by inserting each definition at its id; then
        an atlas one tile high and one tile wide per definition is created,
        and every definition is given its strip. A throwing insert leaves the
        list as far as it got and the atlas as it was; so does an atlas size
        that is not positive. */
    method Initialize(raw: seq<TileDef>) returns (fault: Option<InitFault>)
      modifies this
      ensures var b := InsertAll(raw);
        && (b.failedAt.Some? ==>
              fault == Some(IndexOutOfRange(b.failedAt.value)) && tileDefs == b.defs && texture == old(texture))
        && (b.failedAt.None? && (tileWidth * |raw| <= 0 || tileHeight <= 0) ==>
              fault == Some(BadBitmapSize) && tileDefs == b.defs && texture == old(texture))
        && (b.failedAt.None? && tileWidth * |raw| > 0 && tileHeight > 0 ==>
              fault == None && texture == Some(Bitmap(tileWidth * |raw|, tileHeight)) && tileDefs == Laid(b.defs))
    {
      tileDefs := [];
      var i := 0;
      while i < |raw|
        invariant 0 <= i <= |raw|
        invariant InsertAll(raw[..i]) == Insertion(tileDefs, None)
        invariant texture == old(texture)
      {
        var d := raw[i];
        assert raw[..i + 1][..i] == raw[..i];
        if !(0 <= d.id <= |tileDefs|) {
          // ArrayList.add(index, element) throws
          assert InsertAll(raw[..i + 1]) == Insertion(tileDefs, Some(i));
          InsertStops(raw, i + 1);
          return Some(IndexOutOfRange(i));
        }
        tileDefs := tileDefs[..d.id] + [d] + tileDefs[d.id..];
        i := i + 1;
      }
      assert raw[..i] == raw;
      if tileWidth * |raw| <= 0 || tileHeight <= 0 {
        // Bitmap.createBitmap rejects a non-positive size
        return Some(BadBitmapSize);
      }
      texture := Some(Bitmap(tileWidth * |raw|, tileHeight));
      ghost var defs := tileDefs;
      var n := |tileDefs|;
      var k := 0;
      while k < n
        invariant 0 <= k <= n == |defs| == |tileDefs|
        invariant forall j :: 0 <= j < k ==> tileDefs[j] == Placed(defs[j], n)
        invariant forall j :: k <= j < n ==> tileDefs[j] == defs[j]
        invariant texture == Some(Bitmap(tileWidth * |raw|, tileHeight))
      {
        tileDefs := tileDefs[k := Placed(tileDefs[k], n)];
        k := k + 1;
      }
      fault := None;
    }

    /** getAllTextures: the atlas, or an IllegalStateException (None) before
        initialize has created one. */
    function GetAllTextures(): (r: Option<seq<Bitmap>>)
      reads this
      ensures r.Some? <==> texture.Some?
      ensures r.Some? ==> r.value == [texture.value]
    {
      if texture.Some? then Some([texture.value]) else None
    }

    /** getTileTex: the atlas for any code (None where `texture!!` throws). */
    function GetTileTex(code: int): (r: Option<Bitmap>)
      reads this
      ensures r == texture
    {
      texture
    }

    /** getTileTexX: the x of the strip at list position `code`; None where
        the index or the unset field throws. */
    function GetTileTexX(code: int): (r: Option<real>)
      reads this
    {
      if 0 <= code < |tileDefs| then tileDefs[code].texX else None
    }

    function GetTileTexY(code: int): (r: Option<real>)
      reads this
    {
      if 0 <= code < |tileDefs| then tileDefs[code].texY else None
    }

    function GetTileTexW(code: int): (r: Option<real>)
      reads this
    {
      if 0 <= code < |tileDefs| then tileDefs[code].texW else None
    }

    function GetTileTexH(code: int): (r: Option<real>)
      reads this
    {
      if 0 <= code < |tileDefs| then tileDefs[code].texH else None
    }

    /** getTile: the atlas and the four strip values of one code; None
        where any of them throws. */
    function GetTile(code: int): (r: Option<Tile>)
      reads this
      ensures r.Some? <==>
        texture.Some? && GetTileTexX(code).Some? && GetTileTexY(code).Some? &&
        GetTileTexW(code).Some? && GetTileTexH(code).Some?
      ensures r.Some? ==> r.value == Tile(texture.value, GetTileTexX(code).value, GetTileTexY(code).value,
                                          GetTileTexW(code).value, GetTileTexH(code).value)
    {
      match (texture, StripOf(tileDefs, code))
      case (Some(b), Some(s)) => Some(Tile(b, s.u, s.v, s.w, s.h))
      case _ => None
    }

    /** The tileset as the view consumes it: tile size and the four
        getTileTex* getters of the current list. */
    function View(): (v: TilesetView)
      reads this
      ensures v.tileWidth == tileWidth && v.tileHeight == tileHeight
    {
      var defs := tileDefs;
      TilesetView(tileWidth, tileHeight, code => StripOf(defs, code))
    }
  }

  /** The strip the four getters return for one code of a list. */
  function StripOf(defs: seq<TileDef>, code: int): (r: Option<TexRect>)
    ensures r.Some? ==>
      (&& 0 <= code < |defs|
       && defs[code].texX == Some(r.value.u) && defs[code].texY == Some(r.value.v)
       && defs[code].texW == Some(r.value.w) && defs[code].texH == Some(r.value.h))
    ensures (&& 0 <= code < |defs| && defs[code].texX.Some? && defs[code].texY.Some?
             && defs[code].texW.Some? && defs[code].texH.Some?) ==> r.Some?
  {
    if 0 <= code < |defs| && defs[code].texX.Some? && defs[code].texY.Some?
       && defs[code].texW.Some? && defs[code].texH.Some?
    then Some(TexRect(defs[code].texX.value, defs[code].texY.value, defs[code].texW.value, defs[code].texH.value))
    else None
  }

  /** The view's lookup agrees with the four getters. */
  lemma ViewAgreesWithGetters(t: ASCIITileset, code: int)
    ensures t.View().rect(code).Some? <==>
      t.GetTileTexX(code).Some? && t.GetTileTexY(code).Some? &&
      t.GetTileTexW(code).Some? && t.GetTileTexH(code).Some?
    ensures t.View().rect(code).Some? ==>
      (t.View().rect(code).value ==
         TexRect(t.GetTileTexX(code).value, t.GetTileTexY(code).value,
                 t.GetTileTexW(code).value, t.GetTileTexH(code).value))
  {
  }

  /** After an initialize that completes, every code 0..n-1 has a strip
      inside the atlas, and no other code has one. */
  lemma InitializedStrips(raw: seq<TileDef>, code: int)
    requires InsertAll(raw).failedAt.None? && |raw| > 0
    ensures var defs := Laid(InsertAll(raw).defs);
      && (StripOf(defs, code).Some? <==> 0 <= code < |raw|)
      && (StripOf(defs, code).Some? ==>
            var s := StripOf(defs, code).value;
            0.0 <= s.u && s.u + s.w <= 1.0 && s.v == 0.0 && s.h == 1.0)
  {
    var defs := InsertAll(raw).defs;
    if 0 <= code < |raw| {
      InsertedIdsInRange(raw);
      assert defs[code] in defs;
      StripInAtlas(defs[code], |raw|);
    }
  }

}
