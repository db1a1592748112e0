/** The IsometricConverter class of include/isometricConverter.hpp: a pair of
    fixed tile dimensions and conversions between top-down and isometric
    coordinates computed from them. */
module IsometricConverter {
  import opened Geometry

  datatype Converter = Converter(tileWidth: real, tileHeight: real) {

    /** The default-argument constructor: 40 by 20. */
    static function Default(): (c: Converter)
      ensures c.tileWidth == 2.0 * c.tileHeight
    {
      Converter(40.0, 20.0)
    }

    /** Top-down to isometric: (x - y) scaled by half the width, (x + y) by a quarter of the height. */
    function CartesianToIsometric(cartesian: Vec2): (iso: Vec2)
      ensures tileWidth != 0.0 ==> (iso.x == 0.0 <==> cartesian.x == cartesian.y)
      ensures tileHeight != 0.0 ==> (iso.y == 0.0 <==> cartesian.x == -cartesian.y)
    {
      Vec2((cartesian.x - cartesian.y) * tileWidth / 2.0,
           (cartesian.x + cartesian.y) * tileHeight / 4.0)
    }

    /** Isometric to top-down, as written. Float division by a zero dimension
        gives infinities, which the model excludes. */
    function IsometricToCartesian(iso: Vec2): (c: Vec2)
      requires tileWidth != 0.0 && tileHeight != 0.0
      ensures CartesianToIsometric(c) == Vec2(2.0 * iso.x, iso.y)
    {
      Vec2((iso.x / tileWidth + iso.y / tileHeight) * 2.0,
           (iso.y / tileHeight - iso.x / tileWidth) * 2.0)
    }

    /** Isometric to top-down, corrected so that it undoes CartesianToIsometric. */
    function IsometricToCartesianCorrected(iso: Vec2): (c: Vec2)
      requires tileWidth != 0.0 && tileHeight != 0.0
    {
      Vec2(iso.x / tileWidth + 2.0 * iso.y / tileHeight,
           2.0 * iso.y / tileHeight - iso.x / tileWidth)
    }

    /** The sprite scale for isometric drawing: the y scale is half the x scale. */
    function GetIsometricScale(): (s: Vec2)
      ensures s.x == 1.0 && s.y * 2.0 == s.x
    {
      Vec2(1.0, 0.5)
    }

    /** The draw-order depth of an isometric point is its screen y: a quarter
        of the tile height times x + y of the map point it shows. */
    function GetDepth(isoPos: Vec2): (d: real)
      ensures forall p :: isoPos == CartesianToIsometric(p) ==> d == (p.x + p.y) * tileHeight / 4.0
    {
      isoPos.y
    }
  }

  /** Depth of a converted point grows with x + y when the tile height is positive,
      so points further down-right on the map are drawn later. */
  lemma DepthFollowsDiagonal(conv: Converter, a: Vec2, b: Vec2)
    requires conv.tileHeight > 0.0
    ensures conv.GetDepth(conv.CartesianToIsometric(a)) < conv.GetDepth(conv.CartesianToIsometric(b))
            <==> a.x + a.y < b.x + b.y
  {
    var ia, ib := conv.CartesianToIsometric(a), conv.CartesianToIsometric(b);
    QuarterScaleMonotone(a.x + a.y, b.x + b.y, conv.tileHeight, ia.y, ib.y);
  }

  /** Scaling by a quarter of a positive factor keeps the order. */
  lemma QuarterScaleMonotone(u: real, v: real, k: real, du: real, dv: real)
    requires k > 0.0 && du == u * k / 4.0 && dv == v * k / 4.0
    ensures du < dv <==> u < v
  {
    assert dv - du == (v - u) * k / 4.0;
    if u < v {
      assert (v - u) * k > 0.0;
    } else {
      assert (u - v) * k >= 0.0;
    }
  }

  /** What the as-written round trip computes: ((3x - y) / 2, (3y - x) / 2). */
  lemma RoundTripAsWritten(conv: Converter, p: Vec2)
    requires conv.tileWidth != 0.0 && conv.tileHeight != 0.0
    ensures conv.IsometricToCartesian(conv.CartesianToIsometric(p))
            == Vec2((3.0 * p.x - p.y) / 2.0, (3.0 * p.y - p.x) / 2.0)
  {
    var iso := conv.CartesianToIsometric(p);
    assert iso.x / conv.tileWidth == (p.x - p.y) / 2.0;
    assert iso.y / conv.tileHeight == (p.x + p.y) / 4.0;
  }

  /** The as-written round trip is the identity exactly on the diagonal x == y;
      with the default converter the point (1, 0) comes back as (1.5, -0.5). */
  lemma RoundTripFailsOffDiagonal(conv: Converter, p: Vec2)
    requires conv.tileWidth != 0.0 && conv.tileHeight != 0.0
    ensures conv.IsometricToCartesian(conv.CartesianToIsometric(p)) == p <==> p.x == p.y
    ensures Converter.Default().IsometricToCartesian(Converter.Default().CartesianToIsometric(Vec2(1.0, 0.0)))
            == Vec2(1.5, -0.5)
  {
    RoundTripAsWritten(conv, p);
    FixedExactlyOnDiagonal(p, conv.IsometricToCartesian(conv.CartesianToIsometric(p)));
    DefaultMovesOneZero();
  }

  /** With the default 40 by 20 tiles, (1, 0) comes back as (1.5, -0.5). */
  lemma DefaultMovesOneZero()
    ensures Converter.Default().IsometricToCartesian(Converter.Default().CartesianToIsometric(Vec2(1.0, 0.0)))
            == Vec2(1.5, -0.5)
  {
    RoundTripAsWritten(Converter.Default(), Vec2(1.0, 0.0));
  }

  /** ((3x - y) / 2, (3y - x) / 2) is (x, y) exactly when x == y. */
  lemma FixedExactlyOnDiagonal(p: Vec2, q: Vec2)
    requires q == Vec2((3.0 * p.x - p.y) / 2.0, (3.0 * p.y - p.x) / 2.0)
    ensures q == p <==> p.x == p.y
  {
  }

  /** The corrected inverse undoes the forward conversion, in both orders. */
  lemma RoundTripCorrected(conv: Converter, p: Vec2, q: Vec2)
    requires conv.tileWidth != 0.0 && conv.tileHeight != 0.0
    ensures conv.IsometricToCartesianCorrected(conv.CartesianToIsometric(p)) == p
    ensures conv.CartesianToIsometric(conv.IsometricToCartesianCorrected(q)) == q
  {
    var iso := conv.CartesianToIsometric(p);
    assert iso.x / conv.tileWidth == (p.x - p.y) / 2.0;
    assert iso.y / conv.tileHeight == (p.x + p.y) / 4.0;
    var c := conv.IsometricToCartesianCorrected(q);
    var a, b := q.x / conv.tileWidth, q.y / conv.tileHeight;
    assert c.x - c.y == 2.0 * a;
    assert c.x + c.y == 4.0 * b;
    assert (c.x - c.y) * conv.tileWidth / 2.0 == a * conv.tileWidth;
    assert (c.x + c.y) * conv.tileHeight / 4.0 == b * conv.tileHeight;
  }
}
