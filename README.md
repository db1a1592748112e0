# Silent Escape: a verified model of the game's rules

Silent Escape is a top-down isometric stealth game. The player crosses a
level drawn from a tile map. Guards patrol, spot the player inside a view
cone that walls and boxes block, and then chase or search using a grid
path finder. The player can hack doors and terminals, hide in boxes, put
on disguises and throw distractions. Each of these actions has a cooldown.

This project models the rules behind that, one Dafny module per source file:

- `Pathfinder` (src/pathfinder.cpp): walkability, 8-connected neighbours
  without corner cutting, A* search, Bresenham line of sight and
  string-pulling of the route.
- `Guard` (src/guard.cpp): the guard as a class. It covers the
  Patrolling / Alerted / Chasing / Searching state machine with its clocks,
  the patrol bounce, chase and search movement, and sight.
- `Player` (src/player.cpp, src/distraction.cpp): the player as a class. It
  covers cooldown-gated actions, the timed end of disguise and hiding,
  distraction expiry, collision-undo movement and reaching the goal.
- `InteractionManager` (src/interactionManager.cpp): the E-key interaction.
- `MapLoader` (src/mapLoader.cpp): the wall objects and the walkability
  grid read from a level file.
- `LevelMenu` (src/levelMenu.cpp) and `MainMenu` (src/mainMenu.cpp): the
  two menus as classes.
- `Utils` (include/utils.hpp) and `IsometricConverter`
  (include/isometricConverter.hpp): the grid-to-screen conversions.
- `Geometry` and `Wrappers` hold the shared value types: vectors,
  rectangles and their SFML intersection test, object categories, the game
  state, and Option/Result.

Modelling conventions:

- SFML floats are reals.
- A clock is the time it was last restarted. Every operation that reads a
  clock takes the current time `now` as a parameter.
- `hypot(v) < d` is stated as a squared-distance comparison.
- The square root, `acos`, `cos`, `sin` and π that the guard needs come in
  a `Maths` record. Lemmas state the few laws they rely on as hypotheses.

## Model

| member | source | states |
|---|---|---|
| Utils.ToIsometric | include/utils.hpp:4-21 | A tile size of 0 gives the origin. Otherwise the screen x follows the grid diagonal x − y and the screen y follows x + y, around the fixed offset (1000, 100). |
| Utils.ToIsometricOrigin | include/utils.hpp:4-21 | Grid cell (0, 0) lands on the screen offset for every nonzero tile size. |
| Utils.TileHeightTruncates | include/utils.hpp:12 | The int tile height truncates: tile size 5 gives height 2, and -5 gives -2. |
| Utils.ToIsometricRoundTrip | include/utils.hpp:4-21 | Converting a grid cell to the screen and back (exact inverse on reals) recovers the cell. |
| Utils.ToIsometricDir | include/utils.hpp:22-27 | The converted direction's x + y is twice the grid x and its y − x is twice the grid y. |
| Utils.ToIsometricDirLinear | include/utils.hpp:22-27 | The direction conversion is additive and does not depend on the tile size. |
| IsometricConverter.Converter.CartesianToIsometric | include/isometricConverter.hpp:18-23 | With nonzero tile dimensions, a map point lands on the screen's vertical axis exactly when x = y, and on the horizontal axis exactly when x = −y. |
| IsometricConverter.Converter.IsometricToCartesian | include/isometricConverter.hpp:26-31 | Converting its result back to isometric doubles the screen x and keeps the screen y, so it is not the inverse of cartesianToIsometric. The division by a zero dimension, which gives infinities in floats, is excluded. |
| IsometricConverter.Converter.GetDepth | include/isometricConverter.hpp:38-41 | The depth of the screen image of a map point (x, y) is (x + y) times a quarter of the tile height. |
| IsometricConverter.Converter.GetIsometricScale | include/isometricConverter.hpp:33-36 | The drawing scale is 1 in x and half of that in y. |
| IsometricConverter.DepthFollowsDiagonal | include/isometricConverter.hpp:18-41 | With a positive tile height, one point's depth is below another's exactly when its x + y is. |
| IsometricConverter.RoundTripAsWritten | include/isometricConverter.hpp:18-31 | isometricToCartesian after cartesianToIsometric maps (x, y) to ((3x − y)/2, (3y − x)/2). |
| IsometricConverter.RoundTripFailsOffDiagonal | include/isometricConverter.hpp:26-31 | The written round trip returns the point exactly when x = y. With the default 40×20 tiles, (1, 0) comes back as (1.5, −0.5). |
| IsometricConverter.RoundTripCorrected | include/isometricConverter.hpp:18-31 | The corrected inverse undoes cartesianToIsometric, and cartesianToIsometric undoes it. |
| Pathfinder.Heuristic | src/pathfinder.cpp:24-27 | The Manhattan estimate is non-negative and zero exactly on the goal cell. |
| Pathfinder.ToKeyInjective | src/pathfinder.cpp:69-70 | Inside the grid's columns, the key row·cols + col identifies a cell uniquely. |
| Pathfinder.PathFinder.IsWalkable | src/pathfinder.cpp:32-35 | A walkable cell is always a cell of the grid. |
| Pathfinder.PathFinder.CellOf | src/pathfinder.cpp:63-64 | The cell of a pixel is its coordinates divided by the tile size and truncated toward zero. A non-negative coordinate lies in the tile-wide interval starting at its cell times the tile size. A negative coordinate lies in the interval ending there, so the cells of −tileSize < x < tileSize are all 0. |
| Pathfinder.CellOfCenter | src/pathfinder.cpp:63-64 | Truncating a cell centre divided by the tile size gives that cell back. |
| Pathfinder.GetNeighbours | src/pathfinder.cpp:37-59 | The loop's result is the neighbour list of the specification. |
| Pathfinder.NeighboursIff | src/pathfinder.cpp:37-59 | A cell is a neighbour exactly when it is adjacent: one king step away, walkable, and for a diagonal step both orthogonal cells beside it are walkable. There are at most 8. |
| Pathfinder.StepCostOfNeighbour | src/pathfinder.cpp:114 | A neighbour costs 1 exactly when the heuristic says 1, and √2 (as a float) exactly when it says 2. |
| Pathfinder.HeuristicOverestimatesDiagonal | src/pathfinder.cpp:24-27 | For a diagonal neighbour the heuristic is 2, more than the step's true cost √2. |
| Pathfinder.HasLineOfSight | src/pathfinder.cpp:140-169 | The Bresenham loop answers true exactly when every cell of the line from start to end is walkable. |
| Pathfinder.LineCellsShape | src/pathfinder.cpp:140-169 | The line starts at `from`, ends at `to` and moves by king steps. Sight implies both ends are walkable, and a cell sees itself exactly when it is walkable. |
| Pathfinder.SmoothPath | src/pathfinder.cpp:132-192 | The loops compute the specified string-pulled path. |
| Pathfinder.SmoothShape | src/pathfinder.cpp:171-191 | Smoothing never lengthens the path and keeps its first and last points. Each kept point is an input point at increasing indices. Two consecutive kept points are adjacent in the input or in line of sight. |
| Pathfinder.KeptFromSteps | src/pathfinder.cpp:171-186 | The kept indices are in range and strictly increasing, and each jump is over a clear line. |
| Pathfinder.PopMin | src/pathfinder.cpp:80-83 | The popped entry has the least f cost of the open set, and the rest is the open set minus that one entry. |
| Pathfinder.Reconstruct | src/pathfinder.cpp:93-100 | Following parent links yields the cell centres of the node's chain from the start. |
| Pathfinder.ChainIsWalk | src/pathfinder.cpp:91-125 | Every node's parent chain is a walk of adjacent walkable cells from the start, and the node's g is that walk's cost. |
| Pathfinder.ClosedRegionSeparates | src/pathfinder.cpp:80-129 | If a set of cells is closed under adjacency, holds the start and lacks the goal, then the goal is unreachable. |
| Pathfinder.ExhaustedSearch | src/pathfinder.cpp:127-129 | Once the open set is empty and the goal was never closed, the goal is unreachable from the start. |
| Pathfinder.FoundRoute | src/pathfinder.cpp:91-105 | When the goal is popped, its chain is a walk from start to goal and the smoothed route is not empty. |
| Pathfinder.BuildRoute | src/pathfinder.cpp:93-105 | The route is the chain's centres, plus the exact goal when it is within one tile of the last centre, then smoothed. |
| Pathfinder.ExpandNode | src/pathfinder.cpp:108-126 | The neighbour loop keeps the search invariant and every old node. Each new node is pushed on the open set in order. A neighbour that is not closed gets a fresh node from the current one, with g = current g + step cost, exactly when it had no entry or that step is strictly cheaper than its recorded node. Every other cell keeps its entry. |
| Pathfinder.FindPath | src/pathfinder.cpp:61-130 | A non-empty route comes back exactly when both end cells are walkable and the goal cell can be reached. That route is the smoothed waypoint list of a walk between them. The contract says nothing about how often a cell is expanded. Inside the method, a loop invariant proves that each cell is expanded at most once: a ghost record of expanded cells has no repeats and equals the closed set. |
| Guard.Guard.constructor | src/guard.cpp:4-13 | The guard starts patrolling at (400, 150), home is (400, 150), velocity is (0.1, 0) and the facing equals the velocity. |
| Guard.Guard.Collides | src/guard.cpp:15-18 | The answer is true exactly when the guard's bounds, idealised as the 20×20 square around the circle, overlap one of the rectangles. |
| Guard.PatrolScanAlternates | src/guard.cpp:26-33 | The obstacle scan leaves the guard either where it was or stepped back with its velocity reversed. With nothing hit, nothing changes. |
| Guard.Guard.PatrolObstacles | src/guard.cpp:26-33 | The loop computes the specified obstacle scan and touches nothing else. |
| Guard.Guard.Patrol | src/guard.cpp:20-50 | The guard moves by its velocity, bounces off obstacles and reverses x outside 100..500. A moving guard faces its normalised velocity, and the view distance becomes 100. |
| Guard.Guard.SampleSight | src/guard.cpp:225-238 | The sampling loop answers true exactly when no 2×2 probe every 5 units short of the distance touches a wall or a box. |
| Guard.Guard.CanSeePlayer | src/guard.cpp:214-246 | The answer as written is the sight test taken along the direction the method has just faced. Facing turns toward the player whenever the player is in range and unobstructed. |
| Guard.FieldOfViewIgnored | src/guard.cpp:240-245 | As written, the guard sees the player exactly when the player is in range, at nonzero distance and unobstructed (for any non-negative field of view). The angle never matters. |
| Guard.BehindSeenAsWritten | src/guard.cpp:214-246 | As written, a guard facing +x sees a player 50 units behind it with a 90° field of view. |
| Guard.Guard.CanSeePlayerCorrected | src/guard.cpp:214-246 | The answer is the sight test against the facing held before the call. Facing turns toward the player only when the player is seen. |
| Guard.VisibleWithinHalfView | src/guard.cpp:242-245 | A seen player lies within half the field of view of the facing. |
| Guard.OppositeAngle | src/guard.cpp:242-243 | Any unit facing and its opposite direction are 180° apart. |
| Guard.BehindNotSeen | src/guard.cpp:242-245 | With the corrected test, the player 50 units behind is not seen. |
| Guard.BehindAlertsOnlyAsWritten | src/guard.cpp:276-292 | A patrolling guard facing right, with the player 50 units behind, becomes Alerted in update() with the test as written. With the corrected test it stays Patrolling. |
| Guard.CorrectedNarrows | src/guard.cpp:214-246 | Everything the corrected test sees, the written test sees too. |
| Guard.Guard.Advance | src/guard.cpp:64-91 | The guard moves only when the path finder returns a route, and that happens exactly when both cells are walkable and reachable. Without a route, the position and facing are kept. With one, the guard faces the first waypoint, steps toward it, and steps back on a collision. |
| Guard.Guard.Chase | src/guard.cpp:56-92 | Chasing sets the state to Chasing and the view distance to 115, and leaves the clocks alone. It takes one step of 0.2 toward the first waypoint of the route to the player, and a full step back on a collision. |
| Guard.SearchStepSpec | src/guard.cpp:93-204 | LookAround turns to Wander exactly after more than 2 s. Wander turns to ReturnToPatrol exactly after more than the search duration. ReturnToPatrol returns to Patrolling with a reset clock. Alert fields and the last known position are kept. |
| Guard.Guard.Search | src/guard.cpp:93-204 | The search phase advances as specified. While looking around, the guard stays put and faces (cos 2t, sin 2t). While wandering or returning, it takes one step of 0.08 along the route to the last known position, and steps back by 1 on a collision. |
| Guard.StepSpec | src/guard.cpp:273-362 | Capture happens exactly when chasing, seeing and touching. Patrolling is alerted exactly on sight. Losing sight when alerted or chasing starts a fresh search at the player's position. Alerted turns to chasing once the alert duration has elapsed. Searching is re-alerted exactly when the second sight test sees the player. |
| Guard.StepKeepsSettled | src/guard.cpp:273-362 | Every update keeps the clock flags consistent with the state. |
| Guard.EnteringSearchResets | src/guard.cpp:294-336 | Entering the search always starts at LookAround with stopped clocks and the player's last position. |
| Guard.Guard.Look | src/guard.cpp:214-246 | One sight test, either canSeePlayer as written or the corrected one. Its result is that test's answer from the facing the guard had. The facing it leaves is toward the player when the range and the line of sight pass (as written) or when the player is seen (corrected). Otherwise the facing is unchanged. |
| Guard.Guard.Update | src/guard.cpp:273-362 | Both sight tests are canSeePlayer as written. The first answers from the position and view distance the guard had. In the Searching branch, the second answers from where the search left the guard. The new state and game state are one step of the state machine on those answers, the touch test and the time. Position, velocity, facing and view distance follow the branch taken: patrolling without sight patrols (view distance 100, facing along the new velocity); a chase step sets view distance 115 and moves along the route; a guard that is alerted, or captures, or loses sight, stays put. The searching guard's facing is what the second sight test leaves. |
| Guard.Guard.UpdateCorrected | src/guard.cpp:273-362 | The same tick with both sight tests corrected. The first measures from the facing held before the tick. The second measures from the facing the search left. Position, velocity, facing and view distance follow the branch taken, as in Update. |
| Guard.Guard.React | src/guard.cpp:278-361 | The dispatch on the state performs one step of the state machine. In the Searching branch, the second sight result is the chosen test from where the search left the guard. Each branch's position, velocity, facing and view distance are those of patrol, chase or search, or are unchanged where the branch does not move the guard. |
| Guard.Guard.AlertTick | src/guard.cpp:294-324 | The Alerted branch is the state-machine step. The guard does not move, turn or change its view distance. |
| Guard.Guard.ChaseTick | src/guard.cpp:325-349 | The Chasing branch is the state-machine step. Capture is reported exactly when seeing and touching. A chase step sets view distance 115 and moves along the route to the player. Capturing or losing sight leaves the position, facing and view distance as they were. |
| Guard.Guard.SearchTick | src/guard.cpp:350-360 | The Searching branch is a search step, then the second sight test. That test is taken from the guard's new position, from the facing the search left (the look-around sweep while looking around, a step along the route otherwise). When it sees the player, the alert restarts now. The final facing is what that test leaves. |
| Player.Player.constructor | src/player.cpp:4-21 | The player starts with cooldowns hack 10, disguise 8, hide 10 and distract 2, and every clock started now. It is not disguised, not hidden and has no distractions. |
| Player.FreshActionsWait | src/player.cpp:4-21 | Because the clocks start at creation, each action is refused until its cooldown has elapsed since then. |
| Player.Player.SetActionCooldown | src/player.cpp:212-215 | Exactly one entry of the cooldown table is set. |
| Player.Player.IsOnCooldown | src/player.cpp:218-224 | An action without a cooldown is never on cooldown. Otherwise it is on cooldown exactly while less than its duration has elapsed. |
| Player.RestartStartsCooldown | src/player.cpp:218-224 | After a restart, the action is on cooldown exactly until its duration has elapsed. Other clocks and the cooldown table are unchanged. |
| Player.ActionsSpec | src/player.cpp:120-171 | On cooldown, disguise, hack and distract change nothing and hide only clears `hidden`. Off cooldown, each sets its flag or appends one distraction at the player, and restarts its own clock. |
| Player.ActionsKeepClocks | src/player.cpp:120-171 | The actions keep every cooled-down action's clock present. |
| Player.Player.Disguise | src/player.cpp:120-131 | The new status is the disguise effect, and the player does not move. |
| Player.Player.Hide | src/player.cpp:134-145 | The new status is the hide effect, and the player does not move. |
| Player.Player.Hack | src/player.cpp:148-157 | The new status is the hack effect, and the player does not move. |
| Player.Player.Distract | src/player.cpp:160-171 | The new status is the distract effect at the current position. |
| Player.LiveMembers | src/distraction.cpp:20-24 | Cleanup keeps exactly the distractions that are not expired, and never more than there were. |
| Player.LiveConcat | src/player.cpp:180-186 | Cleanup distributes over concatenation, so the kept distractions stay in order. |
| Player.Player.CleanupDistractions | src/player.cpp:180-186 | The loop keeps the live distractions and nothing else changes. |
| Player.Player.ExpireStatus | src/player.cpp:191-200 | Disguise and hiding end exactly when more than 10 s have elapsed on their clocks. A missing clock is created when it is read. |
| Player.Player.Update | src/player.cpp:189-209 | The disguise and hiding expire, the level is cleared exactly when the goal is less than 10 units away, and expired distractions are dropped. |
| Player.Player.CanMove | src/player.cpp:30-43 | The move succeeds exactly when the moved bounds overlap no collision box. On failure the player is back where it was. |
| Player.Player.Move | src/player.cpp:46-99 | The player moves by the isometric direction times speed and frame time, unless that would collide. |
| InteractionManager.FirstInRange | src/interactionManager.cpp:12-20 | The result is the least index of an object in reach, and None exactly when nothing is in reach. |
| InteractionManager.AtMostOneAction | src/interactionManager.cpp:20-42 | One press performs at most one action, and it is the action of the first object in reach. |
| InteractionManager.InertObjectFirstBlocks | src/interactionManager.cpp:23-42 | A wall in reach listed before a door in reach makes the press do nothing. |
| InteractionManager.NothingInReach | src/interactionManager.cpp:12-44 | With nothing in reach, the press changes nothing. |
| InteractionManager.Handle | src/interactionManager.cpp:5-45 | Without E nothing changes. With E, the player's status becomes the interaction's result, and the player never moves. |
| MapLoader.Mark | src/mapLoader.cpp:79-82 | The grid mark is 1 exactly for the wall codes 1 and 9, and 0 otherwise. |
| MapLoader.RowObjectsIff | src/mapLoader.cpp:19-55 | A line places a wall for each wall code, at that column, and nothing else. |
| MapLoader.RowObjectsCount | src/mapLoader.cpp:19-55 | A line places exactly as many objects as it has codes 9 and 1. Together with RowObjectsIff, each wall code yields exactly one wall. |
| MapLoader.MapObjectsIff | src/mapLoader.cpp:17-57 | A file places a wall for each wall code, at that row and column, and nothing else. |
| MapLoader.MapObjectsCount | src/mapLoader.cpp:17-57 | A file places exactly as many objects as it has codes 9 and 1, summed over its rows. Together with MapObjectsIff, each wall code yields exactly one wall. |
| MapLoader.LoadMap | src/mapLoader.cpp:7-59 | The loops compute the specified object list. |
| MapLoader.LoadGridMap | src/mapLoader.cpp:62-88 | The grid has one row per line and one mark per code. |
| MapLoader.GridMatchesWalls | src/mapLoader.cpp:7-88 | A grid cell is blocked exactly when loadMap placed a wall at that cell. |
| MapLoader.WalkableWithoutWall | src/mapLoader.cpp:79-82 | On a rectangular map, the path finder's walkable cells are exactly the in-map cells without a loaded wall. |
| LevelMenu.TilesDisjoint | src/levelMenu.cpp:68-79 | No point lies in two tiles' click areas. |
| LevelMenu.UnlockEach | src/levelMenu.cpp:82-86 | Unlocking succeeds exactly when every index is in range, and it unlocks exactly those tiles. Otherwise it stops at an index out of range. |
| LevelMenu.ConstructorUnlocksPastEnd | src/levelMenu.cpp:82-86 | The written unlocks of tiles 0 to 4 on 3 tiles fail at index 3. |
| LevelMenu.UnlockingExistingTilesUnlocksAll | src/levelMenu.cpp:82-86 | Unlocking the 3 existing tiles unlocks every level. |
| LevelMenu.LevelMenu.constructor | src/levelMenu.cpp:56-88 | The menu has 3 tiles, all unlocked, and only tile 0 is selected. |
| LevelMenu.LevelMenu.SelectOnly | src/levelMenu.cpp:113-117 | Exactly the given tile is selected, and every lock is kept. |
| LevelMenu.LevelMenu.MoveRight | src/levelMenu.cpp:107-119 | The selection moves one right unless it is at the last tile or the current tile is locked. Exactly one tile stays selected. |
| LevelMenu.LevelMenu.MoveLeft | src/levelMenu.cpp:122-134 | The selection moves one left unless it is at the first tile or the current tile is locked. Exactly one tile stays selected. |
| LevelMenu.ArrowsUndoEachOther | src/levelMenu.cpp:107-134 | With all tiles unlocked, left undoes right and right undoes left, away from the ends. |
| LevelMenu.RightMovesOntoLockedTile | src/levelMenu.cpp:109 | moveRight checks the lock of the tile it leaves, so it can land on a locked tile. |
| LevelMenu.ClickSelectsTileUnderMouse | src/levelMenu.cpp:137-156 | A click on an unlocked tile selects it. A click elsewhere keeps the selection. |
| LevelMenu.LevelMenu.OnClick | src/levelMenu.cpp:137-156 | The loop selects the specified clicked tile, and exactly one tile stays selected. |
| LevelMenu.LevelMenu.GetSelectedLevel | src/levelMenu.cpp:159-169 | The level is the selected index if its tile is unlocked and 0 otherwise, so it is always a valid level. |
| MainMenu.Menu.constructor | src/mainMenu.cpp:4-29 | The three labels are in order, and only item 0 is selected and green. |
| MainMenu.Menu.MoveUp | src/mainMenu.cpp:41-49 | The selection moves up unless at the top, and exactly the selected item stays green. |
| MainMenu.Menu.MoveDown | src/mainMenu.cpp:52-60 | The selection moves down unless at the bottom, and exactly the selected item stays green. |
| MainMenu.UpDownInverse | src/mainMenu.cpp:41-60 | Up and down keep the index valid and undo each other away from the ends. |
| MainMenu.UpTimesStopsAtTop | src/mainMenu.cpp:41-49 | k presses of up move k items up, stopping at the top. |
| MainMenu.Menu.GetSelectedIndex | src/mainMenu.cpp:63-66 | The index is valid and is the one green item. |

## Left out

- Drawing is not modelled: sprites, textures, colours, fonts, labels, the sight cone, the tile highlight and log output.
- Keyboard and mouse polling is not modelled: the E key and the mouse position are parameters.
- Time: every clock read becomes the parameter `now`.
- Floating point: all arithmetic is on reals, so rounding, NaN and overflow are not modelled. The one exception is the float value of √2 used as the diagonal step cost.
- Pathfinder.FindPath: does not state that the route is shortest. The Manhattan heuristic overestimates a diagonal step (see HeuristicOverestimatesDiagonal), so A* here promises no optimum. The priority queue's order among equal f costs is left open.
- Pathfinder.PathFinder.Valid: requires a positive tile size and rows at least `cols` long, and the source checks neither. A zero tile size makes the static_cast<int> of p / tileSize in findPath undefined. A short row makes grid[row][col] in isWalkable read out of bounds. Neither case is modelled.
- Pathfinder.Reconstruct: prepends each centre instead of appending and then reversing. The resulting list is the same.
- Guard.Guard.CanSeePlayer: at distance 0 the source divides by zero. Its NaN comparisons then answer "not seen", and the model answers "not seen" directly.
- Guard.Guard.UpdateCorrected: is not in the source. It is update() with the corrected sight test of the Findings, kept beside Guard.Guard.Update, which runs canSeePlayer as written.
- Guard.Guard.Collides: the guard's bounds are idealised as the full 20×20 square (Guard.Bounds). The SFML circle of radius 10 is a 30-point polygon with no vertex at 0° or 180°, so its real bounds are about 19.89 wide, starting about 0.055 to the right. An obstacle that starts in that sliver counts as touching here but not in the source. The same idealised bounds feed the patrol bounce, the step-back after a chase or search step, and the capture test.
- Guard.Guard.ChaseTick: states the Chasing branch with time 0, because that branch reads no clock.
- Guard.Guard.Search: the two branches at the end of ReturnToPatrol do the same thing, so the 50-unit home test has no effect and is merged.
- Guard.Guard.constructor: alertDuration, searchDuration, fieldOfView and the initial viewDistance are constructor parameters. Their header defaults are not part of this model. The same goes for phase LookAround, both clock-started flags false and lastKnownPlayerPosition (0, 0): guard.cpp:4-13 does not set them, and the constructor takes them as the header's member defaults.
- Player.Player.constructor: the goal position is a constructor parameter, because the player header in the repository does not declare it. The sprite's initial position is taken as (0, 0).
- Player.Player.CanMove: undoing the move by subtracting the offset restores the position exactly on reals. With floats it can leave a rounding residue.
- Player.Player.Move: one method with the grid direction as a parameter stands for moveUp, moveDown, moveLeft and moveRight. Their directions are (0, −1), (0, 1), (−1, 0) and (1, 0).
- MapLoader.LoadMap: records each wall by the arguments passed to the GameObject constructor (the datatype `Placed`), because that constructor is not modelled. Reading the file and splitting it into integer tokens is not modelled; the model starts from the rows of codes. Texture lookup is by name only. The negative-position warning is only logging. The grid position is stored as {row, col}, as the source does.
- LevelMenu.LevelMenu.constructor: models the corrected unlocking (see Findings). The width and height arguments are unused by the source.
- Interaction with distractions, guards noticing a disguised or hidden player, level loading, metadata and main.cpp's game loop are outside this core.

## Findings

| source | as written | input that shows it | evidently intended | confidence | as-written member | corrected member |
|---|---|---|---|---|---|---|
| include/isometricConverter.hpp:26-31 | isometricToCartesian computes (2(x/w + y/h), 2(y/h − x/w)), which is not the inverse of cartesianToIsometric | the default 40×20 converter maps (1, 0) to the screen and back to (1.5, −0.5) | the exact inverse (x/w + 2y/h, 2y/h − x/w) | high; not executed | IsometricConverter.RoundTripFailsOffDiagonal | IsometricConverter.RoundTripCorrected |
| src/guard.cpp:240-245 | canSeePlayer sets the facing to the direction of the player before measuring the angle, so the angle is always 0 and the field of view never rejects | guard at (0, 0) facing (1, 0), player at (−50, 0), view distance 100, field of view 90°: seen | measure the angle from the facing held before the call, and turn only when the player is seen (Guard.Guard.UpdateCorrected; Guard.Guard.Update runs the test as written) | high; not executed | Guard.BehindSeenAsWritten | Guard.BehindNotSeen |
| src/levelMenu.cpp:82-86 | the constructor unlocks tiles[0] to tiles[4], but NO_OF_LEVELS is 3 so only three tiles exist | constructing the menu indexes tiles[3] of a three-element vector, which is undefined behaviour | unlock exactly the tiles that exist | high; not executed | LevelMenu.ConstructorUnlocksPastEnd | LevelMenu.UnlockingExistingTilesUnlocksAll |
