/** The grid pathfinder of src/pathfinder.cpp: walkability over an integer
    grid, 8-connected neighbours without corner cutting, A* with a closed set
    and lazily skipped duplicate open entries, and greedy string-pulling over
    a Bresenham line of sight. */
module Pathfinder {
  import opened Geometry
  import opened Wrappers

  /** A grid cell; `x` is the column and `y` the row, as in sf::Vector2i. */
  type Cell = Vec2i

  /** `std::sqrt(2.0f)`: the float nearest to the square root of two. */
  const Sqrt2: real := 1.41421353816986083984375

  /** The eight step directions, in the order getNeighbours tries them. */
  const Directions: seq<Cell> :=
    [Vec2i(0, -1), Vec2i(0, 1), Vec2i(-1, 0), Vec2i(1, 0),
     Vec2i(-1, -1), Vec2i(-1, 1), Vec2i(1, -1), Vec2i(1, 1)]

  function Abs(n: int): nat { if n < 0 then -n else n }

  function Add(a: Cell, b: Cell): Cell { Vec2i(a.x + b.x, a.y + b.y) }
  function Sub(a: Cell, b: Cell): Cell { Vec2i(a.x - b.x, a.y - b.y) }

  predicate IsDiagonal(d: Cell) { Abs(d.x) == 1 && Abs(d.y) == 1 }

  /** One of the eight king moves: a nonzero step of at most one in each axis. */
  predicate IsKingStep(a: Cell, b: Cell)
  {
    a != b && Abs(b.x - a.x) <= 1 && Abs(b.y - a.y) <= 1
  }

  /** The Manhattan distance used as the A* estimate. */
  function Heuristic(a: Cell, b: Cell): (h: int)
    ensures h >= 0
    ensures h == 0 <==> a == b
  {
    Abs(a.x - b.x) + Abs(a.y - b.y)
  }

  /** The cost of one move: 1 along an axis, the square root of two diagonally. */
  function StepCost(from: Cell, to: Cell): real
  {
    if to.x == from.x || to.y == from.y then 1.0 else Sqrt2
  }

  /** A node of the search arena: a cell, its cost so far, its estimate and
      the arena index of the node it was reached from (None for the start). */
  datatype Node = Node(pos: Cell, g: real, h: real, parent: Option<nat>)

  function FCost(n: Node): real { n.g + n.h }

  datatype PathFinder = PathFinder(rows: int, cols: int, tileSize: real, grid: seq<seq<int>>) {

    /** The grid covers `rows` by `cols` cells and tiles have a positive size. */
    predicate Valid()
    {
      0 <= rows <= |grid| && 0 <= cols && tileSize > 0.0 &&
      forall r | 0 <= r < rows :: cols <= |grid[r]|
    }

    /** isWalkable: inside the grid and marked 0. */
    predicate IsWalkable(row: int, col: int)
      requires Valid()
      ensures IsWalkable(row, col) ==> Vec2i(col, row) in Universe()
    {
      0 <= row < rows && 0 <= col < cols && grid[row][col] == 0
    }

    predicate Walkable(c: Cell)
      requires Valid()
    {
      IsWalkable(c.y, c.x)
    }

    /** The cells inside the grid; every walkable cell is one of them. */
    ghost function Universe(): set<Cell>
    {
      set x, y | 0 <= x < cols && 0 <= y < rows :: Vec2i(x, y)
    }

    /** The findPath key of a cell: its row-major index. */
    function ToKey(c: Cell): int { c.y * cols + c.x }

    /** Pixel centre of a cell. */
    function CellCenter(c: Cell): Vec2
    {
      Vec2(c.x as real * tileSize + tileSize / 2.0, c.y as real * tileSize + tileSize / 2.0)
    }

    /** The cell of a pixel position: each coordinate divided by the tile size and truncated. */
    function CellOf(p: Vec2): (c: Cell)
      requires Valid()
      ensures p.x >= 0.0 ==> 0 <= c.x && c.x as real * tileSize <= p.x < (c.x + 1) as real * tileSize
      ensures p.y >= 0.0 ==> 0 <= c.y && c.y as real * tileSize <= p.y < (c.y + 1) as real * tileSize
      ensures p.x < 0.0 ==> c.x <= 0 && (c.x - 1) as real * tileSize < p.x <= c.x as real * tileSize
      ensures p.y < 0.0 ==> c.y <= 0 && (c.y - 1) as real * tileSize < p.y <= c.y as real * tileSize
    {
      TruncScaled(p.x, tileSize);
      TruncScaled(p.y, tileSize);
      Vec2i(Trunc(p.x / tileSize), Trunc(p.y / tileSize))
    }

    /** Whether getNeighbours keeps the step `d` from `pos`: the target is
        walkable and, for a diagonal step, so are both cells it brushes past. */
    predicate Admits(pos: Cell, d: Cell)
      requires Valid()
    {
      IsWalkable(pos.y + d.y, pos.x + d.x) &&
      (IsDiagonal(d) ==> IsWalkable(pos.y, pos.x + d.x) && IsWalkable(pos.y + d.y, pos.x))
    }

    /** The neighbours produced by trying the directions `dirs` in order. */
    function NeighboursOver(pos: Cell, dirs: seq<Cell>): seq<Cell>
      requires Valid()
    {
      if dirs == [] then []
      else
        var d := dirs[|dirs| - 1];
        NeighboursOver(pos, dirs[..|dirs| - 1]) + (if Admits(pos, d) then [Add(pos, d)] else [])
    }

    function Neighbours(pos: Cell): seq<Cell>
      requires Valid()
    {
      NeighboursOver(pos, Directions)
    }

    /** A move that getNeighbours allows: a king step onto a walkable cell
        that, when diagonal, does not cut a corner. */
    predicate Adjacent(a: Cell, b: Cell)
      requires Valid()
    {
      IsKingStep(a, b) && Walkable(b) &&
      (b.x != a.x && b.y != a.y ==> IsWalkable(a.y, b.x) && IsWalkable(b.y, a.x))
    }

    /** `w` is a walk from `s` to `e` through successive neighbours. */
    ghost predicate IsWalk(w: seq<Cell>, s: Cell, e: Cell)
      requires Valid()
    {
      |w| >= 1 && w[0] == s && w[|w| - 1] == e &&
      forall k | 0 <= k < |w| - 1 :: Adjacent(w[k], w[k + 1])
    }

    ghost predicate Reachable(s: Cell, e: Cell)
      requires Valid()
    {
      exists w :: IsWalk(w, s, e)
    }

    function Centers(cells: seq<Cell>): (ps: seq<Vec2>)
      ensures |ps| == |cells|
      ensures forall k | 0 <= k < |cells| :: ps[k] == CellCenter(cells[k])
    {
      seq(|cells|, k requires 0 <= k < |cells| => CellCenter(cells[k]))
    }

    /** The waypoints of a found route: the cell centres, followed by the
        exact goal position when it lies within one tile of the last centre. */
    function Waypoints(cells: seq<Cell>, endPos: Vec2): seq<Vec2>
    {
      var cs := Centers(cells);
      if cs != [] && DistSq(endPos, cs[|cs| - 1]) < tileSize * tileSize then cs + [endPos] else cs
    }

    // ---------------------------------------------------------------
    // Bresenham line of sight and string pulling
    // ---------------------------------------------------------------

    /** The cells that the Bresenham walk of hasLineOfSight visits from `from` to `to`. */
    ghost function LineCells(from: Cell, to: Cell): seq<Cell>
    {
      LineStartInv(from, to);
      LineCellsFrom(LineStart(from, to))
    }

    /** hasLineOfSight: every cell on the Bresenham line is walkable. */
    ghost predicate LineOfSight(from: Cell, to: Cell)
      requires Valid()
    {
      var cells := LineCells(from, to);
      forall k | 0 <= k < |cells| :: Walkable(cells[k])
    }

    /** The grid cell of every point of a path. */
    function CellsOf(path: seq<Vec2>): (cells: seq<Cell>)
      requires Valid()
      ensures |cells| == |path|
      ensures forall k | 0 <= k < |path| :: cells[k] == CellOf(path[k])
    {
      seq(|path|, k requires 0 <= k < |path| => CellOf(path[k]))
    }

    /** The index at which the inner loop of smoothPath stops: the first `j`
        whose cell is not visible from cell `i`, or the path length. */
    ghost function Farthest(cells: seq<Cell>, i: nat, j: nat): (r: nat)
      requires Valid()
      requires i < |cells| && i + 1 <= j <= |cells|
      ensures j <= r <= |cells|
      decreases |cells| - j
    {
      if j < |cells| && LineOfSight(cells[i], cells[j]) then Farthest(cells, i, j + 1) else j
    }

    /** The cursor after point `i` is kept: the last visible point, or the next one. */
    ghost function NextKept(cells: seq<Cell>, i: nat): (n: nat)
      requires Valid()
      requires i < |cells|
      ensures i < n <= |cells|
      ensures n == |cells| ==> i == |cells| - 1
    {
      var j := Farthest(cells, i, i + 1);
      if j > i + 1 then j - 1 else i + 1
    }

    /** The indices of the points smoothPath keeps from index `i` on. */
    ghost function KeptFrom(cells: seq<Cell>, i: nat): seq<nat>
      requires Valid()
      requires i <= |cells|
      decreases |cells| - i
    {
      if i == |cells| then [] else [i] + KeptFrom(cells, NextKept(cells, i))
    }

    ghost function SmoothFrom(path: seq<Vec2>, cells: seq<Cell>, i: nat): seq<Vec2>
      requires Valid()
      requires |cells| == |path| && i <= |path|
      decreases |path| - i
    {
      if i == |path| then [] else [path[i]] + SmoothFrom(path, cells, NextKept(cells, i))
    }

    /** smoothPath: short paths unchanged; otherwise the kept points, with the
        final point appended if it was not kept. */
    ghost function Smooth(path: seq<Vec2>): seq<Vec2>
      requires Valid()
    {
      if |path| < 2 then path
      else
        var r := SmoothFrom(path, CellsOf(path), 0);
        if r != [] && r[|r| - 1] != path[|path| - 1] then r + [path[|path| - 1]] else r
    }
  }

  // ---------------------------------------------------------------
  // The Bresenham walk of hasLineOfSight
  // ---------------------------------------------------------------

  /** The variables of hasLineOfSight: the current cell (x0, y0), the target
      (x1, y1), the absolute deltas, the step signs and the error term. */
  datatype LineState = LineState(x0: int, y0: int, x1: int, y1: int, dx: int, dy: int, sx: int, sy: int, err: int) {
    predicate AtEnd() { x0 == x1 && y0 == y1 }

    function Current(): Cell { Vec2i(x0, y0) }

    function Remaining(): nat { Abs(x1 - x0) + Abs(y1 - y0) }

    /** The walk never overshoots: the remaining distance in each axis is at
        most the delta, the signs point at the target, and the error term is
        determined by the remaining distances. */
    ghost predicate Inv()
    {
      dx >= 0 && dy >= 0 && (sx == 1 || sx == -1) && (sy == 1 || sy == -1) &&
      Abs(x1 - x0) <= dx && Abs(y1 - y0) <= dy &&
      (x0 != x1 ==> (x0 < x1 <==> sx == 1)) &&
      (y0 != y1 ==> (y0 < y1 <==> sy == 1)) &&
      err == dx - dy + Abs(x1 - x0) * dy - Abs(y1 - y0) * dx
    }

    /** One pass of the loop body after the walkability and arrival checks:
        a horizontal move when twice the error exceeds -dy, a vertical move
        when it is below dx, each adjusting the error term. */
    function Step(): LineState
    {
      var xStep, yStep := 2 * err > -dy, 2 * err < dx;
      LineState(if xStep then x0 + sx else x0, if yStep then y0 + sy else y0, x1, y1, dx, dy, sx, sy,
                err - (if xStep then dy else 0) + (if yStep then dx else 0))
    }
  }

  /** The variables as hasLineOfSight initialises them. */
  function LineStart(from: Cell, to: Cell): LineState
  {
    var dx, dy := Abs(to.x - from.x), Abs(to.y - from.y);
    LineState(from.x, from.y, to.x, to.y, dx, dy,
              if from.x < to.x then 1 else -1, if from.y < to.y then 1 else -1, dx - dy)
  }

  lemma LineStartInv(from: Cell, to: Cell)
    ensures LineStart(from, to).Inv()
  {
    var st := LineStart(from, to);
    assert Abs(st.x1 - st.x0) * st.dy == st.dx * st.dy;
    assert Abs(st.y1 - st.y0) * st.dx == st.dy * st.dx;
  }

  lemma MulAtLeast(a: int, b: int)
    requires a >= 1 && b >= 0
    ensures a * b >= b
  {
    assert a * b == (a - 1) * b + b;
  }

  /** Which of the two moves a pass makes, read off the error term: a
      horizontal move only while columns remain, a vertical one only while rows
      remain, and at least one of them unless the target is reached. */
  lemma StepChoice(ax: int, ay: int, dx: int, dy: int, err: int)
    requires 0 <= ax <= dx && 0 <= ay <= dy && ax + ay > 0
    requires err == dx - dy + ax * dy - ay * dx
    ensures 2 * err > -dy ==> ax >= 1
    ensures 2 * err < dx ==> ay >= 1
    ensures 2 * err > -dy || 2 * err < dx
  {
    if ax == 0 {
      MulAtLeast(ay, dx);
      assert ax * dy == 0;
    } else if ay == 0 {
      MulAtLeast(ax, dy);
      assert ay * dx == 0;
    } else {
      MulAtLeast(ax, dy);
      MulAtLeast(ay, dx);
    }
  }

  lemma MulPred(a: int, b: int)
    ensures (a - 1) * b == a * b - b
  {
  }

  /** Each pass moves one king step toward the target and keeps the invariant,
      so the walk terminates. */
  lemma LineStepProgress(st: LineState)
    requires st.Inv() && !st.AtEnd()
    ensures st.Step().Inv()
    ensures st.Step().Remaining() < st.Remaining()
    ensures IsKingStep(st.Current(), st.Step().Current())
    ensures st.Step().x1 == st.x1 && st.Step().y1 == st.y1
  {
    var ax, ay := Abs(st.x1 - st.x0), Abs(st.y1 - st.y0);
    StepChoice(ax, ay, st.dx, st.dy, st.err);
    var xStep, yStep := 2 * st.err > -st.dy, 2 * st.err < st.dx;
    var n := st.Step();
    var ax', ay' := if xStep then ax - 1 else ax, if yStep then ay - 1 else ay;
    assert n.x0 == (if xStep then st.x0 + st.sx else st.x0);
    assert n.y0 == (if yStep then st.y0 + st.sy else st.y0);
    assert n.err == st.err - (if xStep then st.dy else 0) + (if yStep then st.dx else 0);
    assert Abs(n.x1 - n.x0) == ax';
    assert Abs(n.y1 - n.y0) == ay';
    MulPred(ax, st.dy);
    MulPred(ay, st.dx);
    assert n.err == st.dx - st.dy + ax' * st.dy - ay' * st.dx;
  }

  /** The cells visited from a state, the current one first. */
  ghost function LineCellsFrom(st: LineState): seq<Cell>
    requires st.Inv()
    decreases st.Remaining()
  {
    if st.AtEnd() then [st.Current()]
    else
      LineStepProgress(st);
      [st.Current()] + LineCellsFrom(st.Step())
  }

  lemma LineCellsFromHead(st: LineState)
    requires st.Inv()
    ensures |LineCellsFrom(st)| >= 1 && LineCellsFrom(st)[0] == st.Current()
  {
  }

  lemma LineCellsFromUnfold(st: LineState)
    requires st.Inv() && !st.AtEnd()
    ensures st.Step().Inv()
    ensures LineCellsFrom(st) == [st.Current()] + LineCellsFrom(st.Step())
  {
    LineStepProgress(st);
  }

  /** The Bresenham line starts at the current cell, ends at the target and
      moves by king steps. */
  lemma {:induction false} LineCellsFromShape(st: LineState)
    requires st.Inv()
    decreases st.Remaining()
    ensures var cells := LineCellsFrom(st);
      |cells| >= 1 && cells[0] == st.Current() && cells[|cells| - 1] == Vec2i(st.x1, st.y1) &&
      forall k | 0 <= k < |cells| - 1 :: IsKingStep(cells[k], cells[k + 1])
  {
    if !st.AtEnd() {
      LineStepProgress(st);
      LineCellsFromShape(st.Step());
    }
  }

  /** The line of sight walks from `from` to `to` in king steps; so a clear line
      implies both end cells are walkable, and a cell sees itself exactly when
      it is walkable. */
  lemma LineCellsShape(pf: PathFinder, from: Cell, to: Cell)
    requires pf.Valid()
    ensures var cells := pf.LineCells(from, to);
      |cells| >= 1 && cells[0] == from && cells[|cells| - 1] == to &&
      forall k | 0 <= k < |cells| - 1 :: IsKingStep(cells[k], cells[k + 1])
    ensures pf.LineOfSight(from, to) ==> pf.Walkable(from) && pf.Walkable(to)
    ensures pf.LineOfSight(from, from) <==> pf.Walkable(from)
  {
    LineStartInv(from, to);
    LineCellsFromShape(LineStart(from, to));
    LineStartInv(from, from);
    assert LineStart(from, from).AtEnd();
    assert pf.LineCells(from, from) == [from];
  }

  // ---------------------------------------------------------------
  // Walkability and neighbours
  // ---------------------------------------------------------------

  /** A cell is walkable exactly when it lies inside the grid and holds 0;
      every cell outside the grid is unwalkable. */
  lemma WalkableInBounds(pf: PathFinder, c: Cell)
    requires pf.Valid()
    ensures pf.Walkable(c) <==> 0 <= c.y < pf.rows && 0 <= c.x < pf.cols && pf.grid[c.y][c.x] == 0
    ensures pf.Walkable(c) ==> c in pf.Universe()
  {
    if pf.Walkable(c) {
      assert c == Vec2i(c.x, c.y);
    }
  }

  /** The row-major key is injective on the cells of the grid, so keying the
      search tables by cell is the same as keying them by toKey. */
  lemma ToKeyInjective(pf: PathFinder, a: Cell, b: Cell)
    requires 0 <= a.x < pf.cols && 0 <= b.x < pf.cols && 0 <= a.y && 0 <= b.y
    ensures pf.ToKey(a) == pf.ToKey(b) <==> a == b
  {
    if a.y < b.y {
      MulStrict(a.y, b.y, pf.cols);
    } else if b.y < a.y {
      MulStrict(b.y, a.y, pf.cols);
    }
  }

  lemma MulStrict(p: int, q: int, n: int)
    requires 0 <= p < q && n > 0
    ensures p * n + n <= q * n
  {
    MulAtLeast(q - p, n);
    assert (q - p) * n == q * n - p * n;
  }

  lemma {:induction false} NeighboursOverIff(pf: PathFinder, pos: Cell, dirs: seq<Cell>, n: Cell)
    requires pf.Valid()
    ensures n in pf.NeighboursOver(pos, dirs) <==> Sub(n, pos) in dirs && pf.Admits(pos, Sub(n, pos))
    ensures |pf.NeighboursOver(pos, dirs)| <= |dirs|
  {
    if dirs != [] {
      var init, d := dirs[..|dirs| - 1], dirs[|dirs| - 1];
      NeighboursOverIff(pf, pos, init, n);
      assert dirs == init + [d];
      assert Add(pos, d) == n <==> d == Sub(n, pos);
    }
  }

  lemma DirectionsAreKingSteps(pos: Cell, n: Cell)
    ensures Sub(n, pos) in Directions <==> IsKingStep(pos, n)
    ensures Sub(n, pos) in Directions ==> (IsDiagonal(Sub(n, pos)) <==> n.x != pos.x && n.y != pos.y)
  {
    var d := Sub(n, pos);
    if IsKingStep(pos, n) {
      assert -1 <= d.x <= 1 && -1 <= d.y <= 1 && d != Vec2i(0, 0);
      if d.x == -1 {
        assert d == Vec2i(-1, -1) || d == Vec2i(-1, 0) || d == Vec2i(-1, 1);
      } else if d.x == 0 {
        assert d == Vec2i(0, -1) || d == Vec2i(0, 1);
      } else {
        assert d == Vec2i(1, -1) || d == Vec2i(1, 0) || d == Vec2i(1, 1);
      }
    }
  }

  /** getNeighbours returns exactly the walkable king-step cells around `pos`,
      a diagonal one only when both orthogonal cells beside it are walkable
      (no corner cutting), and never more than eight. */
  lemma NeighboursIff(pf: PathFinder, pos: Cell, n: Cell)
    requires pf.Valid()
    ensures n in pf.Neighbours(pos) <==> pf.Adjacent(pos, n)
    ensures |pf.Neighbours(pos)| <= 8
  {
    NeighboursOverIff(pf, pos, Directions, n);
    DirectionsAreKingSteps(pos, n);
    if IsKingStep(pos, n) {
      AdmitsAdjacent(pf, pos, n);
    }
  }

  /** For a king step, the direction test of getNeighbours is the adjacency relation. */
  lemma AdmitsAdjacent(pf: PathFinder, pos: Cell, n: Cell)
    requires pf.Valid() && IsKingStep(pos, n)
    requires IsDiagonal(Sub(n, pos)) <==> n.x != pos.x && n.y != pos.y
    ensures pf.Admits(pos, Sub(n, pos)) <==> pf.Adjacent(pos, n)
  {
    var d := Sub(n, pos);
    assert pos.y + d.y == n.y && pos.x + d.x == n.x;
  }

  /** The estimate is not admissible: for a diagonal neighbour it is 2 while
      the step costs the square root of two, so A* optimality is not claimed. */
  lemma HeuristicOverestimatesDiagonal(pf: PathFinder, pos: Cell, n: Cell)
    requires pf.Valid()
    requires n in pf.Neighbours(pos) && n.x != pos.x && n.y != pos.y
    ensures Heuristic(pos, n) == 2
    ensures StepCost(pos, n) == Sqrt2 < Heuristic(pos, n) as real
  {
    NeighboursIff(pf, pos, n);
  }

  /** A neighbour sharing a row or column with `pos` costs 1, any other costs the square root of two. */
  lemma StepCostOfNeighbour(pf: PathFinder, pos: Cell, n: Cell)
    requires pf.Valid()
    requires n in pf.Neighbours(pos)
    ensures StepCost(pos, n) == 1.0 <==> Heuristic(pos, n) == 1
    ensures StepCost(pos, n) == Sqrt2 <==> Heuristic(pos, n) == 2
  {
    NeighboursIff(pf, pos, n);
  }

  /** The pixel centre of an on-grid cell converts back to that cell. */
  lemma CellOfCenter(pf: PathFinder, c: Cell)
    requires pf.Valid()
    requires c.x >= 0 && c.y >= 0
    ensures pf.CellOf(pf.CellCenter(c)) == c
  {
    var t := pf.tileSize;
    var p := pf.CellCenter(c);
    assert p.x == (c.x as real + 0.5) * t;
    assert p.y == (c.y as real + 0.5) * t;
    DivCancel(p.x, c.x as real + 0.5, t);
    DivCancel(p.y, c.y as real + 0.5, t);
    TruncHalf(c.x);
    TruncHalf(c.y);
  }

  /** Truncating `x / t` for a positive `t` gives the `t`-wide interval,
      counted from zero, that holds `x`. */
  lemma TruncScaled(x: real, t: real)
    requires t > 0.0
    ensures var n := Trunc(x / t);
      (x >= 0.0 ==> 0 <= n && n as real * t <= x < (n + 1) as real * t) &&
      (x < 0.0 ==> n <= 0 && (n - 1) as real * t < x <= n as real * t)
  {
    var q := x / t;
    var n := Trunc(q);
    var lo, hi := (n - 1) as real, (n + 1) as real;
    assert lo == n as real - 1.0 && hi == n as real + 1.0;
    ScaledBetween(x, q, t, n as real, hi);
    ScaledBetween(x, q, t, lo, n as real);
  }

  /** Bounds on a quotient, multiplied back by a positive divisor. */
  lemma ScaledBetween(x: real, q: real, t: real, lo: real, hi: real)
    requires t > 0.0 && q == x / t
    ensures lo <= q < hi ==> lo * t <= x < hi * t
    ensures lo < q <= hi ==> lo * t < x <= hi * t
    ensures x >= 0.0 <==> q >= 0.0
  {
    assert x == q * t;
    assert x - lo * t == (q - lo) * t;
    assert hi * t - x == (hi - q) * t;
    if lo < q {
      assert (q - lo) * t > 0.0;
    }
    if q < hi {
      assert (hi - q) * t > 0.0;
    }
    if q < 0.0 {
      assert q * t < 0.0;
    }
  }

  lemma TruncHalf(n: nat)
    ensures Trunc(n as real + 0.5) == n
  {
    var m := Trunc(n as real + 0.5);
    assert m as real <= n as real + 0.5 < m as real + 1.0;
  }

  lemma DivCancel(p: real, a: real, t: real)
    requires t != 0.0 && p == a * t
    ensures p / t == a
  {
  }

  /** getNeighbours: tries the eight directions in order and keeps those the grid admits. */
  method GetNeighbours(pf: PathFinder, pos: Cell) returns (neighbours: seq<Cell>)
    requires pf.Valid()
    ensures neighbours == pf.Neighbours(pos)
  {
    neighbours := [];
    for k := 0 to |Directions|
      invariant neighbours == pf.NeighboursOver(pos, Directions[..k])
    {
      var dir := Directions[k];
      var neighbour := Vec2i(pos.x + dir.x, pos.y + dir.y);
      assert Directions[..k + 1][..k] == Directions[..k];
      if !pf.IsWalkable(neighbour.y, neighbour.x) {
        continue;
      }
      if Abs(dir.x) == 1 && Abs(dir.y) == 1 {
        if !pf.IsWalkable(pos.y, pos.x + dir.x) || !pf.IsWalkable(pos.y + dir.y, pos.x) {
          continue;
        }
      }
      neighbours := neighbours + [neighbour];
    }
    assert Directions[..|Directions|] == Directions;
  }

  // ---------------------------------------------------------------
  // Line of sight and string pulling
  // ---------------------------------------------------------------

  /** The hasLineOfSight lambda of smoothPath: walks the Bresenham line from
      `start`, failing at the first unwalkable cell and succeeding on reaching `end`. */
  method HasLineOfSight(pf: PathFinder, start: Cell, end: Cell) returns (visible: bool)
    requires pf.Valid()
    ensures visible == pf.LineOfSight(start, end)
  {
    var x0, y0 := start.x, start.y;
    var x1, y1 := end.x, end.y;
    var dx: int, dy: int := Abs(x1 - x0), Abs(y1 - y0);
    var sx := if x0 < x1 then 1 else -1;
    var sy := if y0 < y1 then 1 else -1;
    var err := dx - dy;
    LineStartInv(start, end);
    ghost var line := pf.LineCells(start, end);
    ghost var st := LineStart(start, end);
    ghost var n := 0;
    while true
      invariant st.x0 == x0 && st.y0 == y0 && st.err == err
      invariant st.x1 == x1 && st.y1 == y1 && st.dx == dx && st.dy == dy && st.sx == sx && st.sy == sy
      invariant LineWalked(pf, line, n, st)
      decreases st.Remaining()
    {
      if !pf.IsWalkable(y0, x0) {
        LineBlocked(pf, line, n, st);
        return false;
      }
      if x0 == x1 && y0 == y1 {
        break;
      }
      LineAdvance(pf, line, n, st);
      x0, y0, err := BresenhamStep(x0, y0, dx, dy, sx, sy, err);
      st, n := st.Step(), n + 1;
    }
    LineClear(pf, line, n, st);
    return true;
  }

  /** The error-term update at the end of hasLineOfSight's loop body. */
  method BresenhamStep(x0: int, y0: int, dx: int, dy: int, sx: int, sy: int, err: int)
    returns (x: int, y: int, e: int)
    ensures forall x1, y1 :: LineState(x, y, x1, y1, dx, dy, sx, sy, e) == LineState(x0, y0, x1, y1, dx, dy, sx, sy, err).Step()
  {
    x, y, e := x0, y0, err;
    var e2 := 2 * err;
    if e2 > -dy {
      e := e - dy;
      x := x + sx;
    }
    if e2 < dx {
      e := e + dx;
      y := y + sy;
    }
  }

  /** The state of hasLineOfSight's loop: the first `n` cells of the line
      were walkable, and the rest of the line is what the walk from `st` visits. */
  ghost predicate LineWalked(pf: PathFinder, line: seq<Cell>, n: nat, st: LineState)
    requires pf.Valid()
  {
    st.Inv() && n <= |line| && line[n..] == LineCellsFrom(st) &&
    forall k | 0 <= k < n :: pf.Walkable(line[k])
  }

  lemma LineAdvance(pf: PathFinder, line: seq<Cell>, n: nat, st: LineState)
    requires pf.Valid() && LineWalked(pf, line, n, st)
    requires !st.AtEnd() && pf.Walkable(st.Current())
    ensures LineWalked(pf, line, n + 1, st.Step())
    ensures st.Step().Remaining() < st.Remaining()
  {
    LineStepProgress(st);
    LineCellsFromUnfold(st);
    assert line[n] == st.Current();
    assert line[n + 1..] == line[n..][1..];
  }

  lemma LineBlocked(pf: PathFinder, line: seq<Cell>, n: nat, st: LineState)
    requires pf.Valid() && LineWalked(pf, line, n, st)
    requires !pf.Walkable(st.Current())
    ensures !(forall k | 0 <= k < |line| :: pf.Walkable(line[k]))
  {
    LineCellsFromHead(st);
    assert line[n] == st.Current();
  }

  lemma LineClear(pf: PathFinder, line: seq<Cell>, n: nat, st: LineState)
    requires pf.Valid() && LineWalked(pf, line, n, st)
    requires st.AtEnd() && pf.Walkable(st.Current())
    ensures forall k | 0 <= k < |line| :: pf.Walkable(line[k])
  {
    assert LineCellsFrom(st) == [st.Current()];
    assert |line| == n + 1 && line[n] == st.Current();
  }

  /** The inner loop of smoothPath stops at the first point not visible from
      point `i`: every point before it is visible. */
  lemma {:induction false} FarthestSpec(pf: PathFinder, cells: seq<Cell>, i: nat, j: nat)
    requires pf.Valid()
    requires i < |cells| && i + 1 <= j <= |cells|
    ensures var r := pf.Farthest(cells, i, j);
      (forall m | j <= m < r :: pf.LineOfSight(cells[i], cells[m])) &&
      (r < |cells| ==> !pf.LineOfSight(cells[i], cells[r]))
    decreases |cells| - j
  {
    if j < |cells| && pf.LineOfSight(cells[i], cells[j]) {
      FarthestSpec(pf, cells, i, j + 1);
    }
  }

  /** The point kept after point `i` is the last one of the visible run that
      follows it, or simply the next point when that is not visible. */
  lemma NextKeptSpec(pf: PathFinder, cells: seq<Cell>, i: nat)
    requires pf.Valid()
    requires i < |cells|
    ensures var n := pf.NextKept(cells, i);
      (n == i + 1 || pf.LineOfSight(cells[i], cells[n])) &&
      (forall m | i < m < n :: pf.LineOfSight(cells[i], cells[m])) &&
      (n + 1 < |cells| && pf.LineOfSight(cells[i], cells[n]) ==> !pf.LineOfSight(cells[i], cells[n + 1]))
  {
    FarthestSpec(pf, cells, i, i + 1);
  }

  /** The kept indices start at `i`, stay inside the path and end at its last point. */
  lemma {:induction false} KeptFromRange(pf: PathFinder, cells: seq<Cell>, i: nat)
    requires pf.Valid()
    requires i < |cells|
    ensures var kept := pf.KeptFrom(cells, i);
      |kept| >= 1 && kept[0] == i && kept[|kept| - 1] == |cells| - 1 &&
      forall k | 0 <= k < |kept| :: i <= kept[k] < |cells|
    decreases |cells| - i
  {
    var n := pf.NextKept(cells, i);
    if n < |cells| {
      KeptFromRange(pf, cells, n);
    }
  }

  /** The smoothed points are the path points at the kept indices. */
  lemma {:induction false} KeptFromPoints(pf: PathFinder, path: seq<Vec2>, cells: seq<Cell>, i: nat)
    requires pf.Valid()
    requires |cells| == |path| && i < |path|
    ensures var kept, out := pf.KeptFrom(cells, i), pf.SmoothFrom(path, cells, i);
      |kept| == |out| && (forall k | 0 <= k < |kept| :: kept[k] < |path|) &&
      forall k | 0 <= k < |kept| :: out[k] == path[kept[k]]
    decreases |path| - i
  {
    KeptFromRange(pf, cells, i);
    var n := pf.NextKept(cells, i);
    if n < |path| {
      KeptFromPoints(pf, path, cells, n);
    }
  }

  /** The kept indices strictly increase, and each kept point is followed by
      the next point of the path or by a point it can see. */
  lemma {:induction false} KeptFromSteps(pf: PathFinder, cells: seq<Cell>, i: nat)
    requires pf.Valid()
    requires i < |cells|
    ensures var kept := pf.KeptFrom(cells, i);
      (forall k | 0 <= k < |kept| :: kept[k] < |cells|) &&
      (forall k | 0 <= k < |kept| - 1 :: kept[k] < kept[k + 1]) &&
      (forall k | 0 <= k < |kept| - 1 ::
         kept[k + 1] == kept[k] + 1 || pf.LineOfSight(cells[kept[k]], cells[kept[k + 1]]))
    decreases |cells| - i
  {
    KeptFromRange(pf, cells, i);
    var n := pf.NextKept(cells, i);
    if n < |cells| {
      NextKeptSpec(pf, cells, i);
      KeptFromRange(pf, cells, n);
      KeptFromSteps(pf, cells, n);
      var kept, rest := pf.KeptFrom(cells, i), pf.KeptFrom(cells, n);
      assert kept == [i] + rest;
      assert forall k | 1 <= k < |kept| - 1 :: kept[k] == rest[k - 1] && kept[k + 1] == rest[k];
    }
  }

  /** smoothPath keeps the first and the last point, never lengthens the path,
      keeps only points of the path in their order, and joins each kept point
      to the next by adjacency in the path or by a clear line of sight between
      their cells; its final append is never needed. */
  lemma SmoothShape(pf: PathFinder, path: seq<Vec2>)
    requires pf.Valid()
    ensures var out := pf.Smooth(path);
      |out| <= |path| && (path != [] ==> out != [] && out[0] == path[0] && out[|out| - 1] == path[|path| - 1])
    ensures |path| >= 2 ==> pf.Smooth(path) == pf.SmoothFrom(path, pf.CellsOf(path), 0)
    ensures |path| >= 2 ==> var kept := pf.KeptFrom(pf.CellsOf(path), 0);
      |kept| == |pf.Smooth(path)| &&
      (forall k | 0 <= k < |kept| :: kept[k] < |path| && pf.Smooth(path)[k] == path[kept[k]]) &&
      (forall k | 0 <= k < |kept| - 1 :: kept[k] < kept[k + 1]) &&
      (forall k | 0 <= k < |kept| - 1 ::
         kept[k + 1] == kept[k] + 1 || pf.LineOfSight(pf.CellOf(path[kept[k]]), pf.CellOf(path[kept[k + 1]])))
  {
    if |path| >= 2 {
      var cells := pf.CellsOf(path);
      KeptFromRange(pf, cells, 0);
      KeptFromPoints(pf, path, cells, 0);
      KeptFromSteps(pf, cells, 0);
      FirstBelow(pf.KeptFrom(cells, 0), |path|);
    }
  }

  /** The first of strictly increasing indices below `n` leaves room for the rest. */
  lemma {:induction false} FirstBelow(kept: seq<nat>, n: nat)
    requires |kept| >= 1
    requires forall k | 0 <= k < |kept| :: kept[k] < n
    requires forall k | 0 <= k < |kept| - 1 :: kept[k] < kept[k + 1]
    ensures kept[0] + |kept| <= n
  {
    if |kept| > 1 {
      var rest := kept[1..];
      assert forall k | 0 <= k < |rest| - 1 :: rest[k] < rest[k + 1];
      FirstBelow(rest, n);
    }
  }

  /** The inner loop of smoothPath: from point `i`, advance `j` while the cell
      of point `j` is in sight of the cell of point `i`. */
  method ScanVisible(pf: PathFinder, path: seq<Vec2>, i: nat) returns (j: nat)
    requires pf.Valid()
    requires i < |path|
    ensures j == pf.Farthest(pf.CellsOf(path), i, i + 1)
  {
    ghost var cells := pf.CellsOf(path);
    j := i + 1;
    var from := pf.CellOf(path[i]);
    while j < |path|
      invariant i + 1 <= j <= |path|
      invariant pf.Farthest(cells, i, j) == pf.Farthest(cells, i, i + 1)
      decreases |path| - j
    {
      var to := pf.CellOf(path[j]);
      var visible := HasLineOfSight(pf, from, to);
      if !visible {
        break;
      }
      j := j + 1;
    }
  }

  /** The outer loop of smoothPath: keeps point `i`, scans forward while the
      following points stay visible from it, and resumes at the last visible one. */
  method KeepPoints(pf: PathFinder, path: seq<Vec2>) returns (result: seq<Vec2>)
    requires pf.Valid()
    ensures result == pf.SmoothFrom(path, pf.CellsOf(path), 0)
  {
    result := [];
    var i := 0;
    ghost var cells := pf.CellsOf(path);
    while i < |path|
      invariant 0 <= i <= |path|
      invariant result + pf.SmoothFrom(path, cells, i) == pf.SmoothFrom(path, cells, 0)
      decreases |path| - i
    {
      var j := ScanVisible(pf, path, i);
      KeepStep(pf, path, cells, result, i);
      result := result + [path[i]];
      i := if j > i + 1 then j - 1 else i + 1;
    }
  }

  /** One round of the outer loop of smoothPath: keeping point `i` and moving
      to the next kept index preserves what is still to be kept. */
  lemma KeepStep(pf: PathFinder, path: seq<Vec2>, cells: seq<Cell>, result: seq<Vec2>, i: nat)
    requires pf.Valid() && |cells| == |path| && i < |path|
    requires result + pf.SmoothFrom(path, cells, i) == pf.SmoothFrom(path, cells, 0)
    ensures (result + [path[i]]) + pf.SmoothFrom(path, cells, pf.NextKept(cells, i)) == pf.SmoothFrom(path, cells, 0)
  {
    var tail := pf.SmoothFrom(path, cells, pf.NextKept(cells, i));
    assert pf.SmoothFrom(path, cells, i) == [path[i]] + tail;
    assert (result + [path[i]]) + tail == result + ([path[i]] + tail);
  }

  /** smoothPath: paths of fewer than two points come back unchanged; otherwise
      the kept points, followed by the final point when it was not kept. */
  method SmoothPath(pf: PathFinder, path: seq<Vec2>) returns (result: seq<Vec2>)
    requires pf.Valid()
    ensures result == pf.Smooth(path)
  {
    if |path| < 2 {
      return path;
    }
    result := KeepPoints(pf, path);
    if result != [] && result[|result| - 1] != path[|path| - 1] {
      result := result + [path[|path| - 1]];
    }
  }

  // ---------------------------------------------------------------
  // A* search
  // ---------------------------------------------------------------

  /** Every parent link points to an earlier node of the arena. */
  ghost predicate ParentsBefore(nodes: seq<Node>)
  {
    forall i | 0 <= i < |nodes| :: nodes[i].parent.Some? ==> nodes[i].parent.value < i
  }

  /** The cells from the root of node `i`'s parent chain down to node `i`. */
  ghost function Chain(nodes: seq<Node>, i: nat): seq<Cell>
    requires ParentsBefore(nodes) && i < |nodes|
    decreases i
  {
    match nodes[i].parent
    case None => [nodes[i].pos]
    case Some(p) => Chain(nodes, p) + [nodes[i].pos]
  }

  /** The search arena: node 0 is the start node and has no parent; every
      other node was created from an earlier node as one of its neighbours,
      at the cost of that node plus one step, with the Manhattan estimate to `e`. */
  ghost predicate Arena(pf: PathFinder, s: Cell, e: Cell, nodes: seq<Node>)
    requires pf.Valid()
  {
    |nodes| >= 1 && nodes[0] == Node(s, 0.0, Heuristic(s, e) as real, None) &&
    ParentsBefore(nodes) &&
    (forall i | 0 <= i < |nodes| :: pf.Walkable(nodes[i].pos) && nodes[i].h == Heuristic(nodes[i].pos, e) as real) &&
    (forall i | 0 < i < |nodes| ::
       nodes[i].parent.Some? &&
       pf.Adjacent(nodes[nodes[i].parent.value].pos, nodes[i].pos) &&
       nodes[i].g == nodes[nodes[i].parent.value].g + StepCost(nodes[nodes[i].parent.value].pos, nodes[i].pos))
  }

  /** Some open entry refers to a node at cell `c`. */
  ghost predicate InOpen(nodes: seq<Node>, open: seq<nat>, c: Cell)
  {
    exists k | 0 <= k < |open| :: open[k] < |nodes| && nodes[open[k]].pos == c
  }

  /** The open set, the node table (allNodes) and the closed set agree: open
      entries and table entries are nodes of the arena, every node's cell has a
      table entry, closed cells have table entries, the goal is not closed,
      and every cell with a table entry that is not closed is still open. */
  ghost predicate Tables(e: Cell, nodes: seq<Node>, open: seq<nat>, best: map<Cell, nat>, closed: set<Cell>)
  {
    (forall k | 0 <= k < |open| :: open[k] < |nodes|) &&
    (forall c | c in best :: best[c] < |nodes| && nodes[best[c]].pos == c) &&
    (forall i | 0 <= i < |nodes| :: nodes[i].pos in best) &&
    closed <= best.Keys && e !in closed &&
    (forall c | c in best && c !in closed :: InOpen(nodes, open, c))
  }

  /** Every neighbour of a cell in `cells` has a table entry. */
  ghost predicate NeighboursKnown(pf: PathFinder, cells: set<Cell>, best: map<Cell, nat>)
    requires pf.Valid()
  {
    forall c, n | c in cells && pf.Adjacent(c, n) :: n in best
  }

  /** The sum of the step costs along a walk. */
  function PathCost(w: seq<Cell>): real
  {
    if |w| < 2 then 0.0 else PathCost(w[..|w| - 1]) + StepCost(w[|w| - 2], w[|w| - 1])
  }

  /** Following parent links from any node retraces a walk from the start to
      that node's cell, and the node's cost so far is the cost of that walk. */
  lemma {:induction false} ChainIsWalk(pf: PathFinder, s: Cell, e: Cell, nodes: seq<Node>, i: nat)
    requires pf.Valid() && Arena(pf, s, e, nodes) && i < |nodes|
    ensures pf.IsWalk(Chain(nodes, i), s, nodes[i].pos)
    ensures nodes[i].g == PathCost(Chain(nodes, i))
    decreases i
  {
    if i > 0 {
      var p := nodes[i].parent.value;
      ChainIsWalk(pf, s, e, nodes, p);
      var w := Chain(nodes, i);
      assert w == Chain(nodes, p) + [nodes[i].pos];
      assert w[..|w| - 1] == Chain(nodes, p);
    }
  }

  /** A walk that starts inside a set closed under neighbours never leaves it. */
  lemma {:induction false} WalkStaysIn(pf: PathFinder, region: set<Cell>, w: seq<Cell>, k: nat)
    requires pf.Valid()
    requires |w| >= 1 && w[0] in region && k < |w|
    requires forall j | 0 <= j < |w| - 1 :: pf.Adjacent(w[j], w[j + 1])
    requires forall c, n | c in region && pf.Adjacent(c, n) :: n in region
    ensures w[k] in region
    decreases k
  {
    if k > 0 {
      WalkStaysIn(pf, region, w, k - 1);
    }
  }

  /** A set holding `s` but not `e` and closed under neighbours separates them. */
  lemma ClosedRegionSeparates(pf: PathFinder, region: set<Cell>, s: Cell, e: Cell)
    requires pf.Valid()
    requires s in region && e !in region
    requires forall c, n | c in region && pf.Adjacent(c, n) :: n in region
    ensures !pf.Reachable(s, e)
  {
    if pf.Reachable(s, e) {
      var w :| pf.IsWalk(w, s, e);
      WalkStaysIn(pf, region, w, |w| - 1);
    }
  }

  lemma InOpenGrow(nodes: seq<Node>, open: seq<nat>, n: Node, c: Cell)
    requires InOpen(nodes, open, c)
    ensures InOpen(nodes + [n], open + [|nodes|], c)
  {
    var k :| 0 <= k < |open| && open[k] < |nodes| && nodes[open[k]].pos == c;
    assert (open + [|nodes|])[k] == open[k];
  }

  lemma InOpenPop(nodes: seq<Node>, open: seq<nat>, idx: nat, rest: seq<nat>, c: Cell)
    requires InOpen(nodes, open, c)
    requires multiset(rest) + multiset{idx} == multiset(open)
    requires idx < |nodes| && nodes[idx].pos != c
    ensures InOpen(nodes, rest, c)
  {
    var k :| 0 <= k < |open| && open[k] < |nodes| && nodes[open[k]].pos == c;
    assert open[k] in multiset(open);
    assert open[k] in multiset(rest);
    var k' :| 0 <= k' < |rest| && rest[k'] == open[k];
  }

  /** Popping an entry keeps the tables consistent, both when its cell was
      already closed and when its cell, not the goal, is closed now. */
  lemma PopKeepsTables(e: Cell, nodes: seq<Node>, open: seq<nat>, idx: nat, rest: seq<nat>,
                       best: map<Cell, nat>, closed: set<Cell>)
    requires Tables(e, nodes, open, best, closed)
    requires idx in open && multiset(rest) + multiset{idx} == multiset(open)
    ensures idx < |nodes| && nodes[idx].pos in best
    ensures nodes[idx].pos in closed ==> Tables(e, nodes, rest, best, closed)
    ensures nodes[idx].pos != e ==> Tables(e, nodes, rest, best, closed + {nodes[idx].pos})
  {
    forall k | 0 <= k < |rest|
      ensures rest[k] < |nodes|
    {
      assert rest[k] in multiset(rest);
      assert rest[k] in multiset(open);
      assert rest[k] in open;
    }
    forall c | c in best && c !in closed && c != nodes[idx].pos
      ensures InOpen(nodes, rest, c)
    {
      InOpenPop(nodes, open, idx, rest, c);
    }
  }

  /** When the open set runs out, the closed cells hold the start, not the
      goal, and are closed under neighbours: the goal is unreachable. */
  lemma ExhaustedSearch(pf: PathFinder, s: Cell, e: Cell, nodes: seq<Node>, best: map<Cell, nat>, closed: set<Cell>)
    requires pf.Valid()
    requires Tables(e, nodes, [], best, closed) && NeighboursKnown(pf, closed, best) && s in best
    ensures !pf.Reachable(s, e)
  {
    assert best.Keys == closed;
    ClosedRegionSeparates(pf, closed, s, e);
  }

  /** `openSet.top(); openSet.pop()`: removes an entry of least f cost; which
      of several equal entries goes first is left open, as the priority queue leaves it. */
  method PopMin(nodes: seq<Node>, open: seq<nat>) returns (idx: nat, rest: seq<nat>)
    requires open != []
    requires forall k | 0 <= k < |open| :: open[k] < |nodes|
    ensures idx in open && multiset(rest) + multiset{idx} == multiset(open) && |rest| == |open| - 1
    ensures forall k | 0 <= k < |open| :: FCost(nodes[idx]) <= FCost(nodes[open[k]])
  {
    var m := 0;
    for k := 1 to |open|
      invariant 0 <= m < k
      invariant forall q | 0 <= q < k :: FCost(nodes[open[m]]) <= FCost(nodes[open[q]])
    {
      if FCost(nodes[open[k]]) < FCost(nodes[open[m]]) {
        m := k;
      }
    }
    idx := open[m];
    rest := open[..m] + open[m + 1..];
    assert open == open[..m] + [open[m]] + open[m + 1..];
  }

  lemma CentersAppend(pf: PathFinder, a: seq<Cell>, b: seq<Cell>)
    ensures pf.Centers(a + b) == pf.Centers(a) + pf.Centers(b)
  {
    assert |pf.Centers(a + b)| == |pf.Centers(a) + pf.Centers(b)|;
    forall k | 0 <= k < |a + b|
      ensures pf.Centers(a + b)[k] == (pf.Centers(a) + pf.Centers(b))[k]
    {
      if k >= |a| {
        assert (a + b)[k] == b[k - |a|];
      }
    }
  }

  /** The reconstruction loop of findPath: follows parent links from the goal
      node and yields the cell centres from the start to the goal (pushing to
      the back and reversing is the same as pushing to the front). */
  method Reconstruct(pf: PathFinder, nodes: seq<Node>, goal: nat) returns (path: seq<Vec2>)
    requires ParentsBefore(nodes) && goal < |nodes|
    ensures path == pf.Centers(Chain(nodes, goal))
  {
    path := [];
    var node: Option<nat> := Some(goal);
    while node.Some?
      invariant node.Some? ==> node.value < |nodes|
      invariant pf.Centers(Chain(nodes, goal)) ==
                (if node.Some? then pf.Centers(Chain(nodes, node.value)) else []) + path
      decreases if node.Some? then node.value + 1 else 0
    {
      var n := nodes[node.value];
      ReconstructStep(pf, nodes, goal, node.value, path);
      path := [pf.CellCenter(n.pos)] + path;
      node := n.parent;
    }
  }

  /** One round of the reconstruction loop: the centre of node `i` moves from
      the part still to be followed to the front of the part already built. */
  lemma ReconstructStep(pf: PathFinder, nodes: seq<Node>, goal: nat, i: nat, path: seq<Vec2>)
    requires ParentsBefore(nodes) && goal < |nodes| && i < |nodes|
    requires pf.Centers(Chain(nodes, goal)) == pf.Centers(Chain(nodes, i)) + path
    ensures var parent := nodes[i].parent;
      pf.Centers(Chain(nodes, goal)) ==
      (if parent.Some? then pf.Centers(Chain(nodes, parent.value)) else []) + ([pf.CellCenter(nodes[i].pos)] + path)
  {
    var c := pf.CellCenter(nodes[i].pos);
    match nodes[i].parent {
      case None =>
        assert pf.Centers(Chain(nodes, i)) == [c] by {
          assert Chain(nodes, i) == [nodes[i].pos];
        }
      case Some(p) =>
        var front := pf.Centers(Chain(nodes, p));
        assert pf.Centers(Chain(nodes, i)) == front + [c] by {
          assert Chain(nodes, i) == Chain(nodes, p) + [nodes[i].pos];
          CentersAppend(pf, Chain(nodes, p), [nodes[i].pos]);
          assert pf.Centers([nodes[i].pos]) == [c];
        }
        assert (front + [c]) + path == front + ([c] + path);
    }
  }

  /** Appending a node created from node `idx` for one of its neighbours keeps
      the arena well formed. */
  lemma AddNodeArena(pf: PathFinder, s: Cell, e: Cell, nodes: seq<Node>, idx: nat, node: Node)
    requires pf.Valid()
    requires Arena(pf, s, e, nodes)
    requires idx < |nodes| && node.parent == Some(idx)
    requires pf.Adjacent(nodes[idx].pos, node.pos)
    requires node.g == nodes[idx].g + StepCost(nodes[idx].pos, node.pos)
    requires node.h == Heuristic(node.pos, e) as real
    ensures Arena(pf, s, e, nodes + [node])
  {
    var nodes' := nodes + [node];
    assert nodes'[|nodes|] == node;
    assert forall i | 0 <= i < |nodes| :: nodes'[i] == nodes[i];
    assert ParentsBefore(nodes');
  }

  /** Recording a new node for a cell that is not closed keeps the tables
      consistent: the new node is open and its cell points to it. */
  lemma AddNodeTables(e: Cell, nodes: seq<Node>, open: seq<nat>, best: map<Cell, nat>, closed: set<Cell>, node: Node)
    requires Tables(e, nodes, open, best, closed)
    requires node.pos !in closed
    ensures Tables(e, nodes + [node], open + [|nodes|], best[node.pos := |nodes|], closed)
  {
    var nodes', open', best' := nodes + [node], open + [|nodes|], best[node.pos := |nodes|];
    assert forall i | 0 <= i < |nodes| :: nodes'[i] == nodes[i];
    assert forall k | 0 <= k < |open| :: open'[k] == open[k];
    assert open'[|open|] == |nodes| && nodes'[|nodes|] == node;
    forall c | c in best && c !in closed
      ensures InOpen(nodes', open', c)
    {
      InOpenGrow(nodes, open, node, c);
    }
    assert InOpen(nodes', open', node.pos);
  }

  /** The invariant of findPath's main loop. */
  ghost predicate SearchInv(pf: PathFinder, s: Cell, e: Cell, nodes: seq<Node>, open: seq<nat>,
                            best: map<Cell, nat>, closed: set<Cell>)
    requires pf.Valid()
  {
    Arena(pf, s, e, nodes) && Tables(e, nodes, open, best, closed) &&
    NeighboursKnown(pf, closed, best) && s in best
  }

  /** The start node alone, open and recorded, satisfies the invariant. */
  lemma SearchStart(pf: PathFinder, s: Cell, e: Cell)
    requires pf.Valid() && pf.Walkable(s)
    ensures SearchInv(pf, s, e, [Node(s, 0.0, Heuristic(s, e) as real, None)], [0], map[s := 0], {})
  {
    var nodes: seq<Node> := [Node(s, 0.0, Heuristic(s, e) as real, None)];
    var open: seq<nat> := [0];
    assert InOpen(nodes, open, s) by {
      assert open[0] < |nodes| && nodes[open[0]].pos == s;
    }
  }

  /** After popping node `idx`: if its cell was closed the invariant still
      holds; otherwise its cell is a grid cell not yet closed, and closing it
      leaves the neighbour loop's precondition. */
  lemma PopStep(pf: PathFinder, s: Cell, e: Cell, nodes: seq<Node>, open: seq<nat>, idx: nat, rest: seq<nat>,
                best: map<Cell, nat>, closed: set<Cell>)
    requires pf.Valid()
    requires SearchInv(pf, s, e, nodes, open, best, closed)
    requires idx in open && multiset(rest) + multiset{idx} == multiset(open)
    ensures idx < |nodes|
    ensures nodes[idx].pos in closed ==> SearchInv(pf, s, e, nodes, rest, best, closed)
    ensures nodes[idx].pos !in closed ==> nodes[idx].pos in pf.Universe()
    ensures nodes[idx].pos !in closed && nodes[idx].pos != e ==>
      Arena(pf, s, e, nodes) && Tables(e, nodes, rest, best, closed + {nodes[idx].pos}) &&
      NeighboursKnown(pf, (closed + {nodes[idx].pos}) - {nodes[idx].pos}, best) && s in best
  {
    PopKeepsTables(e, nodes, open, idx, rest, best, closed);
    var p := nodes[idx].pos;
    WalkableInBounds(pf, p);
    if p !in closed {
      assert (closed + {p}) - {p} == closed;
    }
  }

  /** Recording a cell that is not closed yet keeps the record of expanded
      cells free of repeats and equal to the closed set. */
  lemma ExpandOnce(expanded: seq<Cell>, closed: set<Cell>, p: Cell)
    requires forall i, j | 0 <= i < j < |expanded| :: expanded[i] != expanded[j]
    requires forall c :: c in expanded <==> c in closed
    requires p !in closed
    ensures var e := expanded + [p];
      (forall i, j | 0 <= i < j < |e| :: e[i] != e[j]) && forall c :: c in e <==> c in closed + {p}
  {
  }

  /** Closing one more cell of the grid leaves fewer unclosed cells. */
  lemma RemovingShrinks(grid: set<Cell>, closed: set<Cell>, p: Cell)
    requires p in grid && p !in closed
    ensures grid - (closed + {p}) < grid - closed
  {
    assert p in grid - closed;
  }

  /** When the goal is popped, the parent chain of its node is a walk from the
      start to the goal, and its smoothed waypoints are not empty. */
  lemma FoundRoute(pf: PathFinder, s: Cell, e: Cell, nodes: seq<Node>, idx: nat, endPos: Vec2)
    requires pf.Valid() && Arena(pf, s, e, nodes) && idx < |nodes| && nodes[idx].pos == e
    ensures pf.IsWalk(Chain(nodes, idx), s, e) && pf.Reachable(s, e)
    ensures pf.Smooth(pf.Waypoints(Chain(nodes, idx), endPos)) != []
    ensures pf.Walkable(s) && pf.Walkable(e)
  {
    ChainIsWalk(pf, s, e, nodes, idx);
    var w := Chain(nodes, idx);
    SmoothedRouteNonEmpty(pf, w, endPos);
  }

  /** A route of at least one cell keeps at least one waypoint after smoothing. */
  lemma SmoothedRouteNonEmpty(pf: PathFinder, w: seq<Cell>, endPos: Vec2)
    requires pf.Valid() && w != []
    ensures pf.Smooth(pf.Waypoints(w, endPos)) != []
  {
    SmoothShape(pf, pf.Waypoints(w, endPos));
  }

  /** The neighbours of `pos` are exactly the cells it is adjacent to. */
  lemma NeighboursChar(pf: PathFinder, pos: Cell)
    requires pf.Valid()
    ensures forall n :: n in pf.Neighbours(pos) <==> pf.Adjacent(pos, n)
  {
    forall n
      ensures n in pf.Neighbours(pos) <==> pf.Adjacent(pos, n)
    {
      NeighboursIff(pf, pos, n);
    }
  }

  /** The state of the neighbour loop after `k` neighbours of node `idx`:
      the search invariants hold, except that the neighbours of the node just
      closed are known only up to `k`. */
  ghost predicate ExpandInv(pf: PathFinder, s: Cell, e: Cell, nodes: seq<Node>, open: seq<nat>,
                            best: map<Cell, nat>, closed: set<Cell>, idx: nat, current: Node,
                            neighbours: seq<Cell>, k: nat)
    requires pf.Valid()
  {
    Arena(pf, s, e, nodes) && Tables(e, nodes, open, best, closed) &&
    NeighboursKnown(pf, closed - {current.pos}, best) && s in best &&
    idx < |nodes| && nodes[idx] == current && k <= |neighbours| &&
    forall m | 0 <= m < k :: neighbours[m] in best
  }

  /** Passing over a neighbour that already has a table entry. */
  lemma SkipNeighbour(pf: PathFinder, s: Cell, e: Cell, nodes: seq<Node>, open: seq<nat>,
                      best: map<Cell, nat>, closed: set<Cell>, idx: nat, current: Node,
                      neighbours: seq<Cell>, k: nat)
    requires pf.Valid()
    requires ExpandInv(pf, s, e, nodes, open, best, closed, idx, current, neighbours, k)
    requires k < |neighbours| && (neighbours[k] in closed || neighbours[k] in best)
    ensures ExpandInv(pf, s, e, nodes, open, best, closed, idx, current, neighbours, k + 1)
  {
  }

  /** Recording a new node for neighbour `k`. */
  lemma AddNeighbour(pf: PathFinder, s: Cell, e: Cell, nodes: seq<Node>, open: seq<nat>,
                     best: map<Cell, nat>, closed: set<Cell>, idx: nat, current: Node,
                     neighbours: seq<Cell>, k: nat, node: Node)
    requires pf.Valid()
    requires ExpandInv(pf, s, e, nodes, open, best, closed, idx, current, neighbours, k)
    requires k < |neighbours| && node.pos == neighbours[k] && node.pos !in closed
    requires pf.Adjacent(current.pos, node.pos) && node.parent == Some(idx)
    requires node.g == current.g + StepCost(current.pos, node.pos)
    requires node.h == Heuristic(node.pos, e) as real
    ensures ExpandInv(pf, s, e, nodes + [node], open + [|nodes|], best[node.pos := |nodes|], closed,
                      idx, current, neighbours, k + 1)
  {
    AddNodeArena(pf, s, e, nodes, idx, node);
    AddNodeTables(e, nodes, open, best, closed, node);
  }

  /** findPath's replacement test for neighbour `n` of `current`: `n` had
      no table entry, or the step from `current` reaches it for a strictly
      lower cost than the node recorded for it. */
  ghost predicate Improves(nodes0: seq<Node>, best0: map<Cell, nat>, current: Node, n: Cell)
  {
    n !in best0 || (best0[n] < |nodes0| && current.g + StepCost(current.pos, n) < nodes0[best0[n]].g)
  }

  /** What the neighbour loop has done once it has looked at the cells of
      `done`, starting from `nodes0`, `open0` and `best0`: the old nodes are
      kept, every new node is pushed on the open set in order, a neighbour
      that is not closed points to a fresh node from `current` (node `idx`)
      exactly when it improves, and every other cell keeps its entry. */
  ghost predicate Relaxed(e: Cell, nodes0: seq<Node>, open0: seq<nat>, best0: map<Cell, nat>, closed: set<Cell>,
                          idx: nat, current: Node, done: seq<Cell>,
                          nodes: seq<Node>, open: seq<nat>, best: map<Cell, nat>)
  {
    |nodes0| <= |nodes| && nodes[..|nodes0|] == nodes0 &&
    |open0| <= |open| && open[..|open0|] == open0 && |open| - |open0| == |nodes| - |nodes0| &&
    (forall k | |open0| <= k < |open| :: open[k] == |nodes0| + (k - |open0|)) &&
    (forall c | c !in done || c in closed :: (c in best <==> c in best0) && (c in best0 ==> best[c] == best0[c])) &&
    (forall n | n in done && n !in closed ::
       n in best &&
       if Improves(nodes0, best0, current, n) then
         |nodes0| <= best[n] < |nodes| &&
         nodes[best[n]] == Node(n, current.g + StepCost(current.pos, n), Heuristic(n, e) as real, Some(idx))
       else n in best0 && best[n] == best0[n])
  }

  /** Passing over a neighbour: it is closed, or it does not improve. */
  lemma RelaxSkip(e: Cell, nodes0: seq<Node>, open0: seq<nat>, best0: map<Cell, nat>, closed: set<Cell>,
                  idx: nat, current: Node, done: seq<Cell>, nodes: seq<Node>, open: seq<nat>, best: map<Cell, nat>,
                  n: Cell)
    requires forall c | c in best0 :: best0[c] < |nodes0|
    requires Relaxed(e, nodes0, open0, best0, closed, idx, current, done, nodes, open, best)
    requires n in closed || (n in best && best[n] < |nodes| && current.g + StepCost(current.pos, n) >= nodes[best[n]].g)
    ensures Relaxed(e, nodes0, open0, best0, closed, idx, current, done + [n], nodes, open, best)
  {
    if n !in closed && n !in done {
      assert best[n] == best0[n] && nodes[best0[n]] == nodes0[best0[n]];
    }
  }

  /** Recording a fresh node for a neighbour that improves. */
  lemma {:induction false} RelaxAdd(e: Cell, nodes0: seq<Node>, open0: seq<nat>, best0: map<Cell, nat>, closed: set<Cell>,
                 idx: nat, current: Node, done: seq<Cell>, nodes: seq<Node>, open: seq<nat>, best: map<Cell, nat>,
                 node: Node)
    requires forall c | c in best0 :: best0[c] < |nodes0|
    requires Relaxed(e, nodes0, open0, best0, closed, idx, current, done, nodes, open, best)
    requires node == Node(node.pos, current.g + StepCost(current.pos, node.pos), Heuristic(node.pos, e) as real, Some(idx))
    requires var n := node.pos;
      n !in closed && (n !in best || (best[n] < |nodes| && node.g < nodes[best[n]].g))
    ensures Relaxed(e, nodes0, open0, best0, closed, idx, current, done + [node.pos], nodes + [node], open + [|nodes|],
                    best[node.pos := |nodes|])
  {
    var n := node.pos;
    assert n !in done;
    var nodes', open' := nodes + [node], open + [|nodes|];
    assert nodes'[..|nodes0|] == nodes0 by {
      assert nodes'[..|nodes0|] == nodes[..|nodes0|];
    }
    assert open'[..|open0|] == open0 by {
      assert open'[..|open0|] == open[..|open0|];
    }
    if n in best0 {
      assert nodes[best0[n]] == nodes0[best0[n]];
    }
  }

  /** The neighbour loop of findPath for the node `idx` just closed: each
      neighbour that is not closed and is new, or is reached more cheaply than
      its table entry, gets a fresh node that is pushed on the open set and
      recorded in the table; nothing else changes. Afterwards every neighbour
      has a table entry. */
  method ExpandNode(pf: PathFinder, start: Cell, end: Cell, nodes0: seq<Node>, open0: seq<nat>,
                    allNodes0: map<Cell, nat>, closed: set<Cell>, idx: nat, neighbours: seq<Cell>)
    returns (nodes: seq<Node>, open: seq<nat>, allNodes: map<Cell, nat>)
    requires pf.Valid()
    requires Arena(pf, start, end, nodes0) && Tables(end, nodes0, open0, allNodes0, closed)
    requires idx < |nodes0| && nodes0[idx].pos in closed
    requires forall n :: n in neighbours <==> pf.Adjacent(nodes0[idx].pos, n)
    requires NeighboursKnown(pf, closed - {nodes0[idx].pos}, allNodes0) && start in allNodes0
    ensures SearchInv(pf, start, end, nodes, open, allNodes, closed)
    ensures Relaxed(end, nodes0, open0, allNodes0, closed, idx, nodes0[idx], neighbours, nodes, open, allNodes)
  {
    nodes, open, allNodes := nodes0, open0, allNodes0;
    var current := nodes[idx];
    for k := 0 to |neighbours|
      invariant ExpandInv(pf, start, end, nodes, open, allNodes, closed, idx, current, neighbours, k)
      invariant Relaxed(end, nodes0, open0, allNodes0, closed, idx, current, neighbours[..k], nodes, open, allNodes)
    {
      assert neighbours[k] in neighbours;
      nodes, open, allNodes := ExpandOne(pf, start, end, nodes0, open0, allNodes0, closed, idx, current,
                                         neighbours, k, nodes, open, allNodes);
    }
    assert neighbours[..|neighbours|] == neighbours;
  }

  /** A prefix one element longer is the prefix with that element appended. */
  lemma PrefixGrows(cells: seq<Cell>, k: nat)
    requires k < |cells|
    ensures cells[..k + 1] == cells[..k] + [cells[k]]
  {
  }

  /** One round of the neighbour loop, for neighbour `k`. */
  method ExpandOne(pf: PathFinder, start: Cell, end: Cell, nodes0: seq<Node>, open0: seq<nat>,
                   allNodes0: map<Cell, nat>, closed: set<Cell>, idx: nat, current: Node,
                   neighbours: seq<Cell>, k: nat, nodes: seq<Node>, open: seq<nat>, allNodes: map<Cell, nat>)
    returns (nodes': seq<Node>, open': seq<nat>, allNodes': map<Cell, nat>)
    requires pf.Valid() && k < |neighbours| && pf.Adjacent(current.pos, neighbours[k])
    requires forall c | c in allNodes0 :: allNodes0[c] < |nodes0|
    requires ExpandInv(pf, start, end, nodes, open, allNodes, closed, idx, current, neighbours, k)
    requires Relaxed(end, nodes0, open0, allNodes0, closed, idx, current, neighbours[..k], nodes, open, allNodes)
    ensures ExpandInv(pf, start, end, nodes', open', allNodes', closed, idx, current, neighbours, k + 1)
    ensures Relaxed(end, nodes0, open0, allNodes0, closed, idx, current, neighbours[..k + 1], nodes', open', allNodes')
  {
    nodes', open', allNodes' := nodes, open, allNodes;
    var neighborPos := neighbours[k];
    PrefixGrows(neighbours, k);
    if neighborPos in closed {
      SkipNeighbour(pf, start, end, nodes, open, allNodes, closed, idx, current, neighbours, k);
      RelaxSkip(end, nodes0, open0, allNodes0, closed, idx, current, neighbours[..k], nodes, open, allNodes, neighborPos);
      return;
    }
    var cost := if neighborPos.x == current.pos.x || neighborPos.y == current.pos.y then 1.0 else Sqrt2;
    assert cost == StepCost(current.pos, neighborPos);
    var tentativeGCost := current.g + cost;
    if neighborPos !in allNodes || tentativeGCost < nodes[allNodes[neighborPos]].g {
      var node := Node(neighborPos, tentativeGCost, Heuristic(neighborPos, end) as real, Some(idx));
      AddNeighbour(pf, start, end, nodes, open, allNodes, closed, idx, current, neighbours, k, node);
      RelaxAdd(end, nodes0, open0, allNodes0, closed, idx, current, neighbours[..k], nodes, open, allNodes, node);
      var slot: nat := |nodes|;
      open' := open + [slot];
      allNodes' := allNodes[neighborPos := slot];
      nodes' := nodes + [node];
    } else {
      SkipNeighbour(pf, start, end, nodes, open, allNodes, closed, idx, current, neighbours, k);
      RelaxSkip(end, nodes0, open0, allNodes0, closed, idx, current, neighbours[..k], nodes, open, allNodes, neighborPos);
    }
  }

  /** The goal branch of findPath: the cell centres along the parent chain,
      the exact goal position when it is within a tile of the last centre,
      then smoothing. */
  method BuildRoute(pf: PathFinder, nodes: seq<Node>, idx: nat, endPos: Vec2) returns (path: seq<Vec2>)
    requires pf.Valid() && ParentsBefore(nodes) && idx < |nodes|
    ensures path == pf.Smooth(pf.Waypoints(Chain(nodes, idx), endPos))
  {
    path := Reconstruct(pf, nodes, idx);
    if path != [] && DistSq(endPos, path[|path| - 1]) < pf.tileSize * pf.tileSize {
      path := path + [endPos];
    }
    assert path == pf.Waypoints(Chain(nodes, idx), endPos);
    path := SmoothPath(pf, path);
  }

  /** findPath: returns a route exactly when both end cells are walkable and
      the goal cell can be reached from the start cell; the route is the
      smoothed waypoint list of a walk of neighbouring cells between them. */
  method FindPath(pf: PathFinder, startPos: Vec2, endPos: Vec2) returns (path: seq<Vec2>, ghost walk: seq<Cell>)
    requires pf.Valid()
    ensures var s, e := pf.CellOf(startPos), pf.CellOf(endPos);
      path != [] <==> pf.Walkable(s) && pf.Walkable(e) && pf.Reachable(s, e)
    ensures path != [] ==>
      pf.IsWalk(walk, pf.CellOf(startPos), pf.CellOf(endPos)) && path == pf.Smooth(pf.Waypoints(walk, endPos))
  {
    var start := pf.CellOf(startPos);
    var end := pf.CellOf(endPos);
    walk := [];
    if !pf.IsWalkable(start.y, start.x) || !pf.IsWalkable(end.y, end.x) {
      return [], walk;
    }
    var nodes := [Node(start, 0.0, Heuristic(start, end) as real, None)];
    var open: seq<nat> := [0];
    var allNodes: map<Cell, nat> := map[start := 0];
    var closed: set<Cell> := {};
    SearchStart(pf, start, end);
    ghost var grid := pf.Universe();
    // The cells whose neighbours have been expanded, in order: each at most once.
    ghost var expanded: seq<Cell> := [];
    while open != []
      invariant SearchInv(pf, start, end, nodes, open, allNodes, closed)
      invariant forall i, j | 0 <= i < j < |expanded| :: expanded[i] != expanded[j]
      invariant forall c :: c in expanded <==> c in closed
      decreases grid - closed, |open|
    {
      var idx, rest := PopMin(nodes, open);
      PopStep(pf, start, end, nodes, open, idx, rest, allNodes, closed);
      var current := nodes[idx];
      open := rest;
      if current.pos in closed {
        continue;
      }
      RemovingShrinks(grid, closed, current.pos);
      ExpandOnce(expanded, closed, current.pos);
      closed := closed + {current.pos};
      expanded := expanded + [current.pos];
      if current.pos == end {
        path := BuildRoute(pf, nodes, idx, endPos);
        walk := Chain(nodes, idx);
        FoundRoute(pf, start, end, nodes, idx, endPos);
        return;
      }
      var neighbours := GetNeighbours(pf, current.pos);
      NeighboursChar(pf, current.pos);
      nodes, open, allNodes := ExpandNode(pf, start, end, nodes, open, allNodes, closed, idx, neighbours);
    }
    ExhaustedSearch(pf, start, end, nodes, allNodes, closed);
    return [], walk;
  }
}
