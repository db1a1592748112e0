/** The two readers of a level file in src/mapLoader.cpp. A level file is a
    grid of integer tile codes, one row per line; here it is the sequence of
    rows of codes that the stream extraction yields. `loadMap` places a wall
    object for every code 9 (a left-right wall) and 1 (a top-bottom wall);
    `loadGridMap` marks those same codes 1 (blocked) and every other code 0
    (walkable) for the path finder. */
module MapLoader {
  import opened Geometry
  import Pathfinder

  /** The codes that stand for a wall. */
  predicate IsWallTile(tile: int)
  {
    tile == 9 || tile == 1
  }

  /** The arguments loadMap passes to the GameObject constructor for a
      wall: its category, the position computed from the tile indices, the
      grid position `{row, col}` (row first) and the texture name. The
      constructor itself, which loads the texture and derives the sprite
      bounds and collision box of a `Geometry.GameObject`, is left out, so a
      placed wall is recorded by these arguments. */
  datatype Placed = Placed(kind: ObjectType, pos: Vec2, gridPos: Vec2i, texture: string)

  /** The wall placed for a wall code at a row and a column. */
  function WallAt(tile: int, row: int, col: int, tileSize: real): Placed
  {
    Placed(Wall, Vec2(col as real * tileSize, row as real * tileSize), Vec2i(row, col),
           if tile == 9 then "wall-LR" else "wall-TB")
  }

  /** The objects placed for one tile. */
  function TileObjects(tile: int, row: int, col: int, tileSize: real): seq<Placed>
  {
    if IsWallTile(tile) then [WallAt(tile, row, col, tileSize)] else []
  }

  /** The objects placed for one line, in column order. */
  function RowObjects(line: seq<int>, row: int, tileSize: real): seq<Placed>
  {
    if line == [] then []
    else RowObjects(line[..|line| - 1], row, tileSize) + TileObjects(line[|line| - 1], row, |line| - 1, tileSize)
  }

  /** The objects placed for a whole file, row by row. */
  function MapObjects(lines: seq<seq<int>>, tileSize: real): seq<Placed>
  {
    if lines == [] then []
    else MapObjects(lines[..|lines| - 1], tileSize) + RowObjects(lines[|lines| - 1], |lines| - 1, tileSize)
  }

  /** The grid mark of one code: 1 for a wall, 0 for anything else. */
  function Mark(tile: int): (m: int)
    ensures m == 1 <==> IsWallTile(tile)
    ensures m == 0 || m == 1
  {
    if IsWallTile(tile) then 1 else 0
  }

  /** A line places a wall for each wall code in it, at that code's
      column, and nothing else. */
  lemma {:induction false} RowObjectsIff(line: seq<int>, row: int, tileSize: real, o: Placed)
    ensures o in RowObjects(line, row, tileSize) <==>
      exists c | 0 <= c < |line| :: IsWallTile(line[c]) && o == WallAt(line[c], row, c, tileSize)
  {
    if line != [] {
      var init := line[..|line| - 1];
      RowObjectsIff(init, row, tileSize, o);
      if o in RowObjects(line, row, tileSize) && o !in RowObjects(init, row, tileSize) {
        assert IsWallTile(line[|line| - 1]) && o == WallAt(line[|line| - 1], row, |line| - 1, tileSize);
      }
      if exists c | 0 <= c < |line| :: IsWallTile(line[c]) && o == WallAt(line[c], row, c, tileSize) {
        var c :| 0 <= c < |line| && IsWallTile(line[c]) && o == WallAt(line[c], row, c, tileSize);
        if c < |line| - 1 {
          assert init[c] == line[c];
        }
      }
    }
  }

  /** A file places a wall for each wall code in it, at that code's row
      and column, and nothing else. */
  lemma {:induction false} MapObjectsIff(lines: seq<seq<int>>, tileSize: real, o: Placed)
    ensures o in MapObjects(lines, tileSize) <==>
      exists r, c | 0 <= r < |lines| && 0 <= c < |lines[r]| ::
        IsWallTile(lines[r][c]) && o == WallAt(lines[r][c], r, c, tileSize)
  {
    if lines != [] {
      var init, last := lines[..|lines| - 1], |lines| - 1;
      MapObjectsIff(init, tileSize, o);
      RowObjectsIff(lines[last], last, tileSize, o);
      if exists r, c | 0 <= r < |lines| && 0 <= c < |lines[r]| ::
           IsWallTile(lines[r][c]) && o == WallAt(lines[r][c], r, c, tileSize) {
        var r, c :| 0 <= r < |lines| && 0 <= c < |lines[r]| &&
                    IsWallTile(lines[r][c]) && o == WallAt(lines[r][c], r, c, tileSize);
        if r < last {
          assert init[r] == lines[r];
        }
      }
    }
  }

  /** The number of wall codes (9 and 1) in a line. */
  function WallCodes(line: seq<int>): nat
  {
    multiset(line)[9] + multiset(line)[1]
  }

  /** The number of wall codes in a file, summed row by row. */
  function MapWallCodes(lines: seq<seq<int>>): nat
  {
    if lines == [] then 0 else MapWallCodes(lines[..|lines| - 1]) + WallCodes(lines[|lines| - 1])
  }

  /** A line places as many objects as it has wall codes; with RowObjectsIff
      (each wall code's own wall is placed, and the walls of different
      columns differ) no wall is placed twice. */
  lemma {:induction false} RowObjectsCount(line: seq<int>, row: int, tileSize: real)
    ensures |RowObjects(line, row, tileSize)| == WallCodes(line)
  {
    if line != [] {
      var init, last := line[..|line| - 1], line[|line| - 1];
      RowObjectsCount(init, row, tileSize);
      assert line == init + [last];
      assert multiset(line) == multiset(init) + multiset{last};
    }
  }

  /** A file places as many objects as it has wall codes. */
  lemma {:induction false} MapObjectsCount(lines: seq<seq<int>>, tileSize: real)
    ensures |MapObjects(lines, tileSize)| == MapWallCodes(lines)
  {
    if lines != [] {
      MapObjectsCount(lines[..|lines| - 1], tileSize);
      RowObjectsCount(lines[|lines| - 1], |lines| - 1, tileSize);
    }
  }

  /** loadMap, with the file given as its rows of tile codes. */
  method LoadMap(lines: seq<seq<int>>, tileSize: real) returns (objects: seq<Placed>)
    ensures objects == MapObjects(lines, tileSize)
  {
    objects := [];
    for row := 0 to |lines|
      invariant objects == MapObjects(lines[..row], tileSize)
    {
      var line := lines[row];
      ghost var before := objects;
      for col := 0 to |line|
        invariant objects == before + RowObjects(line[..col], row, tileSize)
      {
        assert line[..col + 1][..col] == line[..col];
        var tile := line[col];
        var pos := Vec2(col as real * tileSize, row as real * tileSize);
        if tile == 9 {
          objects := objects + [Placed(Wall, pos, Vec2i(row, col), "wall-LR")];
        } else if tile == 1 {
          objects := objects + [Placed(Wall, pos, Vec2i(row, col), "wall-TB")];
        }
      }
      assert line[..|line|] == line;
      assert lines[..row + 1][..row] == lines[..row];
    }
    assert lines[..|lines|] == lines;
  }

  /** The walkability grid of a file: one row per line and one mark per code. */
  predicate IsGridOf(grid: seq<seq<int>>, lines: seq<seq<int>>)
  {
    |grid| == |lines| &&
    forall r | 0 <= r < |lines| ::
      |grid[r]| == |lines[r]| && forall c | 0 <= c < |lines[r]| :: grid[r][c] == Mark(lines[r][c])
  }

  /** loadGridMap, with the file given as its rows of tile codes. */
  method LoadGridMap(lines: seq<seq<int>>) returns (grid: seq<seq<int>>)
    ensures IsGridOf(grid, lines)
  {
    grid := [];
    for r := 0 to |lines|
      invariant |grid| == r
      invariant forall i | 0 <= i < r ::
        |grid[i]| == |lines[i]| && forall c | 0 <= c < |lines[i]| :: grid[i][c] == Mark(lines[i][c])
    {
      var row: seq<int> := [];
      for c := 0 to |lines[r]|
        invariant |row| == c
        invariant forall j | 0 <= j < c :: row[j] == Mark(lines[r][j])
      {
        if lines[r][c] == 1 || lines[r][c] == 9 {
          row := row + [1];
        } else {
          row := row + [0];
        }
      }
      grid := grid + [row];
    }
  }

  /** The two readers agree: a cell of the grid is blocked exactly when
      loadMap placed a wall with that cell's `{row, col}`. */
  lemma GridMatchesWalls(lines: seq<seq<int>>, grid: seq<seq<int>>, tileSize: real, r: int, c: int)
    requires IsGridOf(grid, lines)
    requires 0 <= r < |lines| && 0 <= c < |lines[r]|
    ensures grid[r][c] == 1 <==> exists o | o in MapObjects(lines, tileSize) :: o.gridPos == Vec2i(r, c)
  {
    if exists o | o in MapObjects(lines, tileSize) :: o.gridPos == Vec2i(r, c) {
      var o :| o in MapObjects(lines, tileSize) && o.gridPos == Vec2i(r, c);
      MapObjectsIff(lines, tileSize, o);
    }
    if grid[r][c] == 1 {
      var o := WallAt(lines[r][c], r, c, tileSize);
      MapObjectsIff(lines, tileSize, o);
    }
  }

  /** On a rectangular file, the path finder built on the grid finds the
      cell at column `c` and row `r` walkable exactly when it is inside the
      file and loadMap placed no wall there. */
  lemma WalkableWithoutWall(lines: seq<seq<int>>, grid: seq<seq<int>>, cols: nat, tileSize: real, r: int, c: int)
    requires IsGridOf(grid, lines) && tileSize > 0.0
    requires forall i | 0 <= i < |lines| :: |lines[i]| == cols
    ensures Pathfinder.PathFinder(|lines|, cols, tileSize, grid).Valid()
    ensures Pathfinder.PathFinder(|lines|, cols, tileSize, grid).Walkable(Vec2i(c, r)) <==>
      0 <= r < |lines| && 0 <= c < cols && !exists o | o in MapObjects(lines, tileSize) :: o.gridPos == Vec2i(r, c)
  {
    if 0 <= r < |lines| && 0 <= c < cols {
      GridMatchesWalls(lines, grid, tileSize, r, c);
    }
  }
}
