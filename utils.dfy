/** Grid-to-screen conversions of include/utils.hpp. */
module Utils {
  import opened Geometry

  /** Screen offset added to every converted grid position. */
  const OffsetX: real := 1000.0
  const OffsetY: real := 100.0

  /** `int tileHeight = tileSize / 2.f`: half the tile size, truncated toward zero. */
  function TileHeight(tileSize: int): (h: int)
    ensures tileSize >= 0 ==> h == tileSize / 2
    ensures tileSize < 0 ==> h == -((-tileSize) / 2)
  {
    Trunc(tileSize as real / 2.0)
  }

  /** toIsometric: a zero tile size is reported and yields the origin; otherwise
      the grid diagonal x - y runs along the screen x axis and x + y down it. */
  function ToIsometric(gridPos: Vec2i, tileSize: int): (r: Vec2)
    ensures tileSize == 0 ==> r == Vec2(0.0, 0.0)
    ensures tileSize != 0 ==> r.x - OffsetX == (gridPos.x - gridPos.y) as real * (tileSize as real / 2.0)
    ensures tileSize != 0 ==> r.y - OffsetY == (gridPos.x + gridPos.y) as real * (TileHeight(tileSize) as real / 2.0)
  {
    if tileSize == 0 then Vec2(0.0, 0.0)
    else
      var tileWidth, tileHeight := tileSize, TileHeight(tileSize);
      var x := (gridPos.x - gridPos.y) as real * (tileWidth as real / 2.0);
      var y := (gridPos.x + gridPos.y) as real * (tileHeight as real / 2.0);
      Vec2(x + OffsetX, y + OffsetY)
  }

  /** Inverse of ToIsometric on reals, for tile sizes whose truncated height is nonzero. */
  function FromIsometric(p: Vec2, tileSize: int): (g: Vec2)
    requires tileSize != 0 && TileHeight(tileSize) != 0
  {
    var u := (p.x - OffsetX) / (tileSize as real / 2.0);
    var v := (p.y - OffsetY) / (TileHeight(tileSize) as real / 2.0);
    Vec2((u + v) / 2.0, (v - u) / 2.0)
  }

  /** Grid cell (0, 0) lands on the fixed screen offset whatever the nonzero tile size. */
  lemma ToIsometricOrigin(tileSize: int)
    requires tileSize != 0
    ensures ToIsometric(Vec2i(0, 0), tileSize) == Vec2(OffsetX, OffsetY)
  {
  }

  /** An odd tile size loses half a pixel of height: tile size 5 gives height 2. */
  lemma TileHeightTruncates()
    ensures TileHeight(5) == 2 && TileHeight(-5) == -2
  {
  }

  /** Converting a grid cell to the screen and back recovers the cell exactly. */
  lemma {:induction false} ToIsometricRoundTrip(g: Vec2i, tileSize: int)
    requires tileSize != 0 && TileHeight(tileSize) != 0
    ensures FromIsometric(ToIsometric(g, tileSize), tileSize) == Vec2(g.x as real, g.y as real)
  {
    var w := tileSize as real / 2.0;
    var h := TileHeight(tileSize) as real / 2.0;
    var p := ToIsometric(g, tileSize);
    var u := (p.x - OffsetX) / w;
    var v := (p.y - OffsetY) / h;
    assert p.x - OffsetX == (g.x - g.y) as real * w;
    assert p.y - OffsetY == (g.x + g.y) as real * h;
    assert u == (g.x - g.y) as real;
    assert v == (g.x + g.y) as real;
  }

  /** toIsometricDir: the grid direction rotated and scaled; tileSize plays no part. */
  function ToIsometricDir(dir: Vec2, tileSize: real): (r: Vec2)
    ensures r.x + r.y == 2.0 * dir.x && r.y - r.x == 2.0 * dir.y
  {
    Vec2(dir.x - dir.y, dir.x + dir.y)
  }

  /** The direction conversion is linear: it respects sums and ignores the tile size. */
  lemma ToIsometricDirLinear(a: Vec2, b: Vec2, t1: real, t2: real)
    ensures ToIsometricDir(a.Plus(b), t1) == ToIsometricDir(a, t2).Plus(ToIsometricDir(b, t1))
  {
  }
}
