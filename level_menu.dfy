/** The level-select screen of src/levelMenu.cpp: a row of level tiles,
    each locked or unlocked and at most one selected, a selected index moved
    by the arrow keys or by a click, and the level the game then starts. */
module LevelMenu {
  import opened Geometry
  import opened Wrappers

  /** NO_OF_LEVELS. */
  const NoOfLevels: nat := 3
  const TileSize: real := 80.0
  const TileGap: real := 10.0
  const OutlineThickness: real := 2.0

  /** The state of one LevelTile: unselected and locked when created. */
  datatype LevelTile = LevelTile(isSelected: bool, isLocked: bool)

  /** The area a tile answers clicks in: its 80 by 80 square at
      (100 + 90 i, 200) grown by the 2-unit outline on every side. */
  function TileBounds(i: nat): Rect
  {
    Rect(100.0 + i as real * (TileSize + TileGap) - OutlineThickness, 200.0 - OutlineThickness,
         TileSize + 2.0 * OutlineThickness, TileSize + 2.0 * OutlineThickness)
  }

  /** sf::Rect::contains: left and top edges inside, right and bottom outside. */
  predicate Contains(r: Rect, p: Vec2)
  {
    r.MinX() <= p.x < r.MaxX() && r.MinY() <= p.y < r.MaxY()
  }

  /** The tiles do not overlap, so a click lands on at most one of them. */
  lemma TilesDisjoint(i: nat, j: nat, p: Vec2)
    requires i != j
    ensures !(Contains(TileBounds(i), p) && Contains(TileBounds(j), p))
  {
  }

  /** The tiles as the constructor's loop creates them. */
  function FreshTiles(n: nat): (ts: seq<LevelTile>)
    ensures |ts| == n && forall i | 0 <= i < n :: ts[i] == LevelTile(false, true)
  {
    seq(n, i => LevelTile(false, true))
  }

  /** Unlocking the tiles at the given indices in turn, stopping at the
      first index outside the tiles (std::vector's operator[] does not check
      it; what happens then is undefined). */
  function UnlockEach(tiles: seq<LevelTile>, indices: seq<int>): (r: Result<seq<LevelTile>, int>)
    ensures r.Ok? <==> forall k | 0 <= k < |indices| :: 0 <= indices[k] < |tiles|
    ensures r.Ok? ==> (|r.value| == |tiles| &&
      forall i | 0 <= i < |tiles| ::
        r.value[i].isSelected == tiles[i].isSelected &&
        (r.value[i].isLocked <==> tiles[i].isLocked && i !in indices))
    ensures r.Err? ==> !(0 <= r.error < |tiles|) && r.error in indices
    decreases |indices|
  {
    if indices == [] then Ok(tiles)
    else if !(0 <= indices[0] < |tiles|) then Err(indices[0])
    else
      var i := indices[0];
      UnlockEach(tiles[i := tiles[i].(isLocked := false)], indices[1..])
  }

  /** The constructor as written unlocks tiles 0 to 4 of a menu of
      NO_OF_LEVELS = 3 tiles: its fourth unlock is out of range. */
  lemma ConstructorUnlocksPastEnd()
    ensures UnlockEach(FreshTiles(NoOfLevels), [0, 1, 2, 3, 4]) == Err(3)
  {
    var t := FreshTiles(NoOfLevels);
    var t1 := t[0 := t[0].(isLocked := false)];
    var t2 := t1[1 := t1[1].(isLocked := false)];
    var t3 := t2[2 := t2[2].(isLocked := false)];
    assert [0, 1, 2, 3, 4][1..] == [1, 2, 3, 4];
    assert [1, 2, 3, 4][1..] == [2, 3, 4];
    assert [2, 3, 4][1..] == [3, 4];
    assert UnlockEach(t, [0, 1, 2, 3, 4]) == UnlockEach(t1, [1, 2, 3, 4]);
    assert UnlockEach(t1, [1, 2, 3, 4]) == UnlockEach(t2, [2, 3, 4]);
    assert UnlockEach(t2, [2, 3, 4]) == UnlockEach(t3, [3, 4]);
  }

  /** Unlocking the NO_OF_LEVELS tiles that exist unlocks every level. */
  lemma UnlockingExistingTilesUnlocksAll()
    ensures var r := UnlockEach(FreshTiles(NoOfLevels), [0, 1, 2]);
      r.Ok? && |r.value| == NoOfLevels && forall i | 0 <= i < NoOfLevels :: !r.value[i].isLocked
  {
  }

  /** The index a right-arrow press leaves selected: one further, unless at
      the last tile or unless the CURRENT tile is locked. */
  function RightIndex(tiles: seq<LevelTile>, selected: int): int
    requires 0 <= selected < |tiles|
  {
    if selected < NoOfLevels - 1 && !tiles[selected].isLocked then selected + 1 else selected
  }

  /** The index a left-arrow press leaves selected. */
  function LeftIndex(tiles: seq<LevelTile>, selected: int): int
    requires 0 <= selected < |tiles|
  {
    if selected > 0 && !tiles[selected].isLocked then selected - 1 else selected
  }

  /** With every tile unlocked, left undoes right and right undoes left,
      away from the ends. */
  lemma ArrowsUndoEachOther(tiles: seq<LevelTile>, s: int)
    requires |tiles| == NoOfLevels && forall i | 0 <= i < |tiles| :: !tiles[i].isLocked
    requires 0 <= s < |tiles|
    ensures s < NoOfLevels - 1 ==> RightIndex(tiles, s) == s + 1 && LeftIndex(tiles, RightIndex(tiles, s)) == s
    ensures s > 0 ==> LeftIndex(tiles, s) == s - 1 && RightIndex(tiles, LeftIndex(tiles, s)) == s
  {
  }

  /** moveRight tests the lock of the tile it leaves, not the one it moves
      to: from an unlocked tile it moves onto a locked one. */
  lemma RightMovesOntoLockedTile()
    ensures RightIndex([LevelTile(true, false), LevelTile(false, true), LevelTile(false, true)], 0) == 1
  {
  }

  /** The index a click leaves selected: the last unlocked tile under the
      mouse, if any. */
  function ClickIndex(tiles: seq<LevelTile>, selected: int, mouse: Vec2): int
  {
    if tiles == [] then selected
    else
      var i := |tiles| - 1;
      if Contains(TileBounds(i), mouse) && !tiles[i].isLocked then i
      else ClickIndex(tiles[..i], selected, mouse)
  }

  /** A click on an unlocked tile selects it; a click anywhere else keeps
      the selection. */
  lemma {:induction false} ClickSelectsTileUnderMouse(tiles: seq<LevelTile>, selected: int, mouse: Vec2)
    ensures forall i | 0 <= i < |tiles| && Contains(TileBounds(i), mouse) && !tiles[i].isLocked ::
      ClickIndex(tiles, selected, mouse) == i
    ensures (forall i | 0 <= i < |tiles| :: !(Contains(TileBounds(i), mouse) && !tiles[i].isLocked)) ==>
      ClickIndex(tiles, selected, mouse) == selected
  {
    if tiles != [] {
      var n := |tiles| - 1;
      ClickSelectsTileUnderMouse(tiles[..n], selected, mouse);
      forall i | 0 <= i < n && Contains(TileBounds(i), mouse)
        ensures !Contains(TileBounds(n), mouse)
      {
        TilesDisjoint(i, n, mouse);
      }
    }
  }

  /** The tiles with only the tile at `i` selected and every lock kept. */
  predicate OnlySelected(tiles: seq<LevelTile>, old_tiles: seq<LevelTile>, i: int)
  {
    |tiles| == |old_tiles| &&
    forall j | 0 <= j < |tiles| :: tiles[j] == LevelTile(j == i, old_tiles[j].isLocked)
  }

  class LevelMenu {
    var selectedLevelIndex: int
    var tiles: seq<LevelTile>

    /** NO_OF_LEVELS tiles, a valid index, and exactly the tile at that
        index selected. */
    predicate Valid()
      reads this
    {
      |tiles| == NoOfLevels && 0 <= selectedLevelIndex < NoOfLevels &&
      forall j | 0 <= j < |tiles| :: tiles[j].isSelected <==> j == selectedLevelIndex
    }

    /** LevelMenu(width, height), unlocking the NO_OF_LEVELS tiles that
        exist: every level unlocked and the first selected. */
    constructor()
      ensures Valid() && selectedLevelIndex == 0
      ensures forall j | 0 <= j < |tiles| :: !tiles[j].isLocked
    {
      var ts: seq<LevelTile> := [];
      for i := 0 to NoOfLevels
        invariant ts == FreshTiles(i)
      {
        ts := ts + [LevelTile(false, true)];
      }
      for i := 0 to NoOfLevels
        invariant |ts| == NoOfLevels
        invariant forall j | 0 <= j < |ts| :: !ts[j].isSelected && (ts[j].isLocked <==> j >= i)
      {
        ts := ts[i := ts[i].(isLocked := false)];
      }
      selectedLevelIndex := 0;
      tiles := ts[0 := ts[0].(isSelected := true)];
    }

    /** Deselect every tile, then select the one at `i`. */
    method SelectOnly(i: int)
      requires 0 <= i < |tiles|
      modifies this
      ensures OnlySelected(tiles, old(tiles), i)
      ensures selectedLevelIndex == old(selectedLevelIndex)
    {
      for j := 0 to |tiles|
        invariant |tiles| == |old(tiles)| && selectedLevelIndex == old(selectedLevelIndex)
        invariant forall k | 0 <= k < |tiles| ::
          tiles[k] == LevelTile(if k < j then false else old(tiles)[k].isSelected, old(tiles)[k].isLocked)
      {
        tiles := tiles[j := tiles[j].(isSelected := false)];
      }
      tiles := tiles[i := tiles[i].(isSelected := true)];
    }

    method MoveRight()
      requires Valid()
      modifies this
      ensures Valid() && selectedLevelIndex == RightIndex(old(tiles), old(selectedLevelIndex))
      ensures forall j | 0 <= j < |tiles| :: tiles[j].isLocked == old(tiles)[j].isLocked
    {
      if selectedLevelIndex < NoOfLevels - 1 && !tiles[selectedLevelIndex].isLocked {
        selectedLevelIndex := selectedLevelIndex + 1;
        SelectOnly(selectedLevelIndex);
      }
    }

    method MoveLeft()
      requires Valid()
      modifies this
      ensures Valid() && selectedLevelIndex == LeftIndex(old(tiles), old(selectedLevelIndex))
      ensures forall j | 0 <= j < |tiles| :: tiles[j].isLocked == old(tiles)[j].isLocked
    {
      if selectedLevelIndex > 0 && !tiles[selectedLevelIndex].isLocked {
        selectedLevelIndex := selectedLevelIndex - 1;
        SelectOnly(selectedLevelIndex);
      }
    }

    method OnClick(mouse: Vec2)
      requires Valid()
      modifies this
      ensures Valid() && selectedLevelIndex == ClickIndex(old(tiles), old(selectedLevelIndex), mouse)
      ensures forall j | 0 <= j < |tiles| :: tiles[j].isLocked == old(tiles)[j].isLocked
    {
      for i := 0 to |tiles|
        invariant Valid()
        invariant forall j | 0 <= j < |tiles| :: tiles[j].isLocked == old(tiles)[j].isLocked
        invariant selectedLevelIndex == ClickIndex(old(tiles)[..i], old(selectedLevelIndex), mouse)
      {
        assert old(tiles)[..i + 1][..i] == old(tiles)[..i];
        if Contains(TileBounds(i), mouse) {
          if !tiles[i].isLocked {
            selectedLevelIndex := i;
            SelectOnly(selectedLevelIndex);
          }
        }
      }
      assert old(tiles)[..|tiles|] == old(tiles);
    }

    /** getSelectedLevel: the selected index when its tile is unlocked, and
        level 0 otherwise. */
    function GetSelectedLevel(): (level: int)
      requires Valid()
      reads this
      ensures 0 <= level < NoOfLevels
      ensures !tiles[selectedLevelIndex].isLocked ==> level == selectedLevelIndex
      ensures tiles[selectedLevelIndex].isLocked ==> level == 0
    {
      if !tiles[selectedLevelIndex].isLocked then selectedLevelIndex else 0
    }
  }
}
