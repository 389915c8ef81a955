/** TestLevel: a single-layer map read from lines of text, one tile code
    per character. */
module Levels {
  import opened Wrappers
  import opened Interfaces

  /** The tile code of one map character: wall, floor, the letter 'a',
      and 0 for anything else. */
  function CharCode(c: char): (r: int)
    ensures 0 <= r <= 3
  {
    match c
    case 'X' => 1
    case '.' => 2
    case 'a' => 3
    case _ => 0
  }

  /** The character each non-zero code is read from. */
  function CodeChar(r: int): (c: char)
    requires 1 <= r <= 3
  {
    if r == 1 then 'X' else if r == 2 then '.' else 'a'
  }

  /** Codes 1 to 3 each come from exactly one character; every other
      character reads as 0. */
  lemma CodeRoundTrip(c: char, r: int)
    ensures 1 <= r <= 3 ==> CharCode(CodeChar(r)) == r
    ensures CharCode(c) != 0 ==> CodeChar(CharCode(c)) == c
    ensures CharCode(c) == 0 <==> c !in ['X', '.', 'a']
  {
  }

  /** One line of text as a row of codes. */
  function ParseLine(line: string): (row: seq<int>)
    ensures |row| == |line|
    ensures forall j :: 0 <= j < |line| ==> row[j] == CharCode(line[j])
  {
    if |line| == 0 then [] else ParseLine(line[..|line| - 1]) + [CharCode(line[|line| - 1])]
  }

  /** The whole text as a (possibly ragged) grid, row i from line i. */
  function Parse(text: seq<string>): (grid: seq<seq<int>>)
    ensures |grid| == |text|
    ensures forall i :: 0 <= i < |text| ==> grid[i] == ParseLine(text[i])
  {
    if |text| == 0 then [] else Parse(text[..|text| - 1]) + [ParseLine(text[|text| - 1])]
  }

  /** Every code of a parsed grid is 0, 1, 2 or 3. */
  predicate CodesInRange(grid: seq<seq<int>>) {
    forall i, j :: 0 <= i < |grid| && 0 <= j < |grid[i]| ==> 0 <= grid[i][j] <= 3
  }

  lemma ParsedCodesInRange(text: seq<string>)
    ensures CodesInRange(Parse(text))
  {
  }

  class TestLevel {
    /** The grid of tile codes, row by row. */
    const tiles: seq<seq<int>>

    /** The init block: one row per line, one code per character. */
    constructor (text: seq<string>)
      ensures tiles == Parse(text)
    {
      var grid: seq<seq<int>> := [];
      var i := 0;
      while i < |text|
        invariant 0 <= i <= |text|
        invariant grid == Parse(text[..i])
      {
        var line := text[i];
        var row: seq<int> := [];
        var j := 0;
        while j < |line|
          invariant 0 <= j <= |line|
          invariant row == ParseLine(line[..j])
        {
          row := row + [CharCode(line[j])];
          assert line[..j + 1][..j] == line[..j];
          j := j + 1;
        }
        assert line[..j] == line;
        grid := grid + [row];
        assert text[..i + 1][..i] == text[..i];
        i := i + 1;
      }
      assert text[..i] == text;
      tiles := grid;
    }

    /** The number of rows. */
    function GetMapHeight(): (h: nat)
      ensures h == |tiles|
    {
      |tiles|
    }

    /** The width of row 0 only (0 with no rows); later rows may be longer
        or shorter. */
    function GetMapWidth(): (wd: nat)
      ensures |tiles| == 0 ==> wd == 0
      ensures |tiles| > 0 ==> wd == |tiles[0]|
    {
      if |tiles| < 1 then 0 else |tiles[0]|
    }

    /** tiles[y][x], or nothing when either index is out of range, negative
        ones included (the index exception is swallowed). */
    function GetTile(x: int, y: int, layer: int): (r: Option<int>)
    {
      if 0 <= y < |tiles| && 0 <= x < |tiles[y]| then Some(tiles[y][x]) else None
    }

    /** Every cell is fully lit. */
    function GetLight(x: int, y: int): (l: real)
      ensures l == 1.0
    {
      1.0
    }

    /** A test level has one layer. */
    function GetLayerCount(): (n: int)
      ensures n == 1
    {
      1
    }

    /** The level as the map the view consumes. */
    function View(): (m: MapView)
      ensures m.layerCount == GetLayerCount()
    {
      MapView(GetLayerCount(), (x, y, layer) => GetTile(x, y, layer), (x, y) => GetLight(x, y))
    }
  }

  /** A level built from text has one row per line and row i as long as
      line i; the width is line 0's length. */
  lemma LevelShape(l: TestLevel, text: seq<string>)
    requires l.tiles == Parse(text)
    ensures l.GetMapHeight() == |text|
    ensures l.GetMapWidth() == (if |text| == 0 then 0 else |text[0]|)
    ensures forall i :: 0 <= i < |text| ==> |l.tiles[i]| == |text[i]|
  {
  }

  /** getTile on a level built from text: a code exactly for the positions
      that exist in the (ragged) text, the code of that character, for any
      layer. */
  lemma LevelLookup(l: TestLevel, text: seq<string>, x: int, y: int, layer: int, other: int)
    requires l.tiles == Parse(text)
    ensures l.GetTile(x, y, layer).Some? <==> 0 <= y < |text| && 0 <= x < |text[y]|
    ensures l.GetTile(x, y, layer).Some? ==> l.GetTile(x, y, layer).value == CharCode(text[y][x])
    ensures l.GetTile(x, y, layer) == l.GetTile(x, y, other)
  {
  }

  /** Every code getTile returns on a level built from text is 0 to 3. */
  lemma LevelCodes(l: TestLevel, text: seq<string>, x: int, y: int, layer: int)
    requires l.tiles == Parse(text)
    ensures l.GetTile(x, y, layer).Some? ==> 0 <= l.GetTile(x, y, layer).value <= 3
  {
    ParsedCodesInRange(text);
  }
}
