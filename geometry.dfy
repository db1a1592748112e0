/** Value types shared by the game's rule sets: SFML's vectors and rectangles,
    the object categories placed on the map, and the top-level game state. */
module Geometry {

  /** sf::Vector2f, over unbounded reals. */
  datatype Vec2 = Vec2(x: real, y: real) {
    function Plus(o: Vec2): Vec2 { Vec2(x + o.x, y + o.y) }
    function Minus(o: Vec2): Vec2 { Vec2(x - o.x, y - o.y) }
    function Neg(): Vec2 { Vec2(-x, -y) }
    function Scale(k: real): Vec2 { Vec2(x * k, y * k) }
    function Div(k: real): Vec2 requires k != 0.0 { Vec2(x / k, y / k) }
    function Dot(o: Vec2): real { x * o.x + y * o.y }
  }

  /** sf::Vector2i. In the grid code `x` is the column and `y` the row. */
  datatype Vec2i = Vec2i(x: int, y: int)

  /** Squared Euclidean distance; `hypot(a - b) < d` is `DistSq(a, b) < d * d` for `d > 0`. */
  function DistSq(a: Vec2, b: Vec2): (r: real)
    ensures r >= 0.0
    ensures a == b ==> r == 0.0
  {
    SquareNonNegative(a.x - b.x);
    SquareNonNegative(a.y - b.y);
    (a.x - b.x) * (a.x - b.x) + (a.y - b.y) * (a.y - b.y)
  }

  lemma SquareNonNegative(d: real)
    ensures d * d >= 0.0
  {
    if d < 0.0 {
      assert d * d == (-d) * (-d);
    }
  }

  /** sf::FloatRect: a corner and a size (the size may be negative). */
  datatype Rect = Rect(left: real, top: real, width: real, height: real) {
    function MinX(): real { if width >= 0.0 then left else left + width }
    function MaxX(): real { if width >= 0.0 then left + width else left }
    function MinY(): real { if height >= 0.0 then top else top + height }
    function MaxY(): real { if height >= 0.0 then top + height else top }
  }

  function Max(a: real, b: real): real { if a >= b then a else b }
  function Min(a: real, b: real): real { if a <= b then a else b }

  /** `a.findIntersection(b).has_value()`: the overlap has positive width and height. */
  predicate Intersects(a: Rect, b: Rect)
  {
    Max(a.MinX(), b.MinX()) < Min(a.MaxX(), b.MaxX()) &&
    Max(a.MinY(), b.MinY()) < Min(a.MaxY(), b.MaxY())
  }

  /** Overlap is a symmetric relation, and a rectangle of zero width overlaps nothing. */
  lemma IntersectsProperties(a: Rect, b: Rect)
    ensures Intersects(a, b) <==> Intersects(b, a)
    ensures a.width == 0.0 ==> !Intersects(a, b)
  {
  }

  /** `static_cast<int>` of a float: truncation toward zero. */
  function Trunc(r: real): (n: int)
    ensures r >= 0.0 ==> 0 <= n && n as real <= r < n as real + 1.0
    ensures r < 0.0 ==> n <= 0 && n as real - 1.0 < r <= n as real
  {
    if r >= 0.0 then r.Floor else -((-r).Floor)
  }

  /** The categories of map objects that the rules below distinguish; `Other`
      stands for every remaining enumerator of ObjectType. */
  datatype ObjectType = Wall | Box | Door | Disguise | Terminal | Other

  /** The game-wide state machine driven by main.cpp. */
  datatype GameState = Menu | LevelMenu | Level1 | Level2 | Level3 | LevelClear | GameOver | Exit

  /** A placed map object as the rules below see it: its category, its
      position and its two rectangles (sprite bounds and collision box). */
  datatype GameObject = GameObject(kind: ObjectType, pos: Vec2, bounds: Rect, collisionBox: Rect)
}
