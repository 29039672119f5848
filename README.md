# Pipe puzzle engine

This is a model of the engine behind a browser pipe puzzle. A random walk carves a path from a
source cell in the bottom row of a square grid to a target cell in the top row. Each path cell gets the
pipe (straight or elbow) and the solution rotation the page's rule assigns from the vectors to its
path neighbours. That pipe is then shown at a random rotation. Every other cell gets a random decoy pipe. The player clicks pipes to
turn them a quarter at a time. The puzzle is solved when every path pipe shows its solution rotation,
and then the decoys are hidden. A hint hides half of the decoys. A one-second countdown ends the game
when it reaches zero.

The project has four modules:

- `Tiles` (tiles.dfy) covers coordinates, shapes and rotations, one click's quarter turn, and the
  classifier that picks a path cell's shape and solution. It also gives the table of the directions
  each shape opens towards at each rotation.
- `PathWalk` (walk.dfy) covers the walk as a function of its random draws, the loop that builds the path,
  the invariants every recorded path keeps, and what the walk does not guarantee.
- `Board` (board.dfy) covers the grid of tiles. It holds the placement loops and the tile each cell gets,
  the win check, the win reveal that hides the decoys, the hint that hides half of them, and clicks on
  the grid.
- `Session` (session.dfy) covers the page's module-level state as the class `Game`. Its fields are
  difficulty, size, tiles, `gameActive`, `timeLeft` and whether the interval timer runs. It also holds
  each handler that changes that state, and the countdown as a datatype with its tick function.

All randomness is a parameter. The walk's start column is `startCol`. Each walk step is an index into
the candidate moves. Each cell's draws are a `Draw` holding an index into the two tile types and an
index into the four rotations. Each hint draw is an index into the shrinking list of decoys.

## Model

| member | source | states |
|---|---|---|
| Tiles.Delta | scripts.js:127-128 | The vector to a neighbour, added to the cell, gives the neighbour. |
| Tiles.RotationsAreRotations | scripts.js:156 | Each entry of the rotation list drawn from is one of 0, 90, 180, 270. |
| Tiles.Rotate | scripts.js:39 | A click gives a rotation below 360. It takes each of the four rotations to a different one of the four, one quarter further and wrapping from 270 to 0. |
| Tiles.RotateFourTimes | scripts.js:38-42 | Four clicks restore a tile's rotation; one, two or three clicks never do. |
| Tiles.Quarters | scripts.js:156 | Each of the four rotations is the entry of the rotation list at its number of quarter turns. |
| Tiles.ClicksReachSolution | scripts.js:38-42 | From any rotation, at most three clicks reach any other, in particular a tile's solution. |
| Tiles.Classify | scripts.js:131-142 | The corrected half of the Findings row: the two-neighbour rule with the straight's rotation corrected to the tile art. A cell always gets one of the four rotations. |
| Tiles.ClassifyAsWritten | scripts.js:131-142 | The two-neighbour rule as the page has it; a cell always gets one of the four rotations. |
| Tiles.ClassifyEnd | scripts.js:143-152 | The corrected one-neighbour rule of the Findings row: a one-neighbour cell gets a straight at one of the four rotations. |
| Tiles.ClassifyEndAsWritten | scripts.js:143-152 | The one-neighbour rule as the page has it: a straight at one of the four rotations. |
| Tiles.ClassifyDirs | scripts.js:126-152 | The page's dispatch: with two neighbour vectors its two-neighbour rule applies and with one its one-neighbour rule, which always gives a straight; the rotation is one of the four. |
| Tiles.ClassifyTable | scripts.js:133-141 | The page's table: a straight is chosen exactly when both vectors have zero row or both have zero column. The straight's rotation is 0 exactly when the first vector has zero row, and 90 exactly when it has not. The rotation of each of the four elbow direction pairs is given. |
| Tiles.ClassifySymmetric | scripts.js:133-141 | For nonzero vectors, swapping the previous and next vectors changes neither the page's classification nor the corrected one. |
| Tiles.ClassifyZeroVectorOrder | scripts.js:135 | With a zero vector the straight's rotation depends on the order of the two vectors, in the page's rule and in the corrected one. |
| Tiles.OpeningsTable | scripts.js:33-39 | The two directions each shape opens towards on screen at each of the four rotations. At 0 the straight is drawn as a vertical bar, open up and down, and the elbow has arms up and right; each quarter of rotation turns both clockwise. |
| Tiles.ClassifyConnects | scripts.js:131-142 | For two different unit vectors, the tile the corrected rule gives opens towards exactly those two neighbours. |
| Tiles.ClassifyEndConnects | scripts.js:143-152 | The straight the corrected one-neighbour rule gives opens towards that neighbour. |
| Tiles.ClassifyUnique | scripts.js:131-142 | Any shape and rotation that opens towards exactly the two neighbours has the shape the rules give. An elbow also has the rotation the corrected rule gives, and a straight has it up to a half turn. |
| Tiles.AsWrittenTurnsStraights | scripts.js:133-151 | The page's rules and the corrected ones give the same shape and the same elbow rotations; the page's straight rotation is always the corrected one turned a quarter (0 and 90 swapped). |
| Tiles.AsWrittenStraightCrossesPath | scripts.js:133-136 | For two different unit neighbours, a straight as the page solves it opens towards neither of them. |
| Tiles.AsWrittenEndCrossesPath | scripts.js:145-151 | A one-neighbour straight as the page solves it opens away from its neighbour. |
| Tiles.VerticalRunAsWritten | scripts.js:135 | A cell between neighbours below and above is solved by the page at 90, which opens left and right; the corrected rule solves it at 0. |
| PathWalk.Walk | scripts.js:91-105 | The walk from a position with the path so far. Below row 0 it moves to the drawn candidate and records it only when it is not yet on the path. It stops in row 0 (Reached), when the draws run out, or at a draw past the candidates. Its properties are stated by `WalkKeepsState`, `WalkStep` and `BuildPath`. |
| PathWalk.Run | scripts.js:87-105 | The walk from the bottom cell of the start column, with that cell recorded; `RunProperties` states what every run keeps. |
| PathWalk.Moves | scripts.js:93-96 | The candidates are one step left, right or up. Left is offered exactly when the column is above 0 and right exactly when it is below size - 1. Up always comes last, and every candidate stays inside the columns. |
| PathWalk.AppendKeepsWalkPath | scripts.js:102-104 | Recording a new cell one step from a recorded one, in no lower row, keeps the path invariants: bottom-row start, in the grid, no repeats, never downwards, each entry stepping from an earlier one. |
| PathWalk.StepKeepsState | scripts.js:98-104 | One move to any candidate keeps the path invariants. The walker stays on a recorded cell in the lowest row reached, and a walker in row 0 has finished the path. |
| PathWalk.AppendKeepsState | scripts.js:102-104 | The position bookkeeping of a newly recorded cell. |
| PathWalk.WalkKeepsState | scripts.js:91-105 | Every walk keeps the path invariants to its end and its first entry. A walk that ends by reaching row 0 has its last entry, and only that one, in row 0. |
| PathWalk.RunProperties | scripts.js:87-105 | A walk from a bottom-row column starts at that cell and keeps the path invariants; if it reaches row 0, its last entry and only that one is in row 0. |
| PathWalk.WalkStep | scripts.js:98-104 | One move below row 0 with a valid draw continues the walk from the drawn candidate, recording it only when new. |
| PathWalk.BuildPath | scripts.js:87-105 | The walk loop computes the walk function of its draws, with the path invariants and the start cell. |
| PathWalk.UpwardsReaches | scripts.js:96-100 | Up is always offered: drawing up `row` times reaches row 0 from any row. |
| PathWalk.SidewaysNeverReaches | scripts.js:91-105 | On a grid two or more wide, always drawing the first candidate never reaches row 0, however many draws are made. |
| PathWalk.DetourStart | scripts.js:98-104 | On a 3 wide grid from column 1, stepping left and then back right onto the start cell records nothing the second time. |
| PathWalk.NonAdjacentEntries | scripts.js:102-104 | The draws 0, 0, 1, 1, 1 on a 3 wide grid from column 1 record the path (2,1) (2,0) (2,2) (1,2) (0,2). Its entries (2,0) and (2,2) follow each other but are two columns apart. |
| Board.IndexOf | scripts.js:123 | The index found is the first occurrence of the cell in the path. |
| Board.NeighbourDirs | scripts.js:124-128 | One vector per existing path neighbour, previous first. |
| Board.TileAt | scripts.js:112-162 | The tile a cell gets. The target comes first, in row 0 in the last entry's column. Next is the source, in the bottom row in the first entry's column. A path cell gets the page's pipe and solution with the drawn displayed rotation, and any other cell a drawn decoy. These cases are stated by `TerminalsAtPathEnds`, `PathCellTile` and `OffPathTile`. |
| Board.Layout | scripts.js:108-168 | The grid of `TileAt` for every cell; `PlaceTiles` is proved to build it and `LayoutWellFormed` states its shape. |
| Board.LayoutRow | scripts.js:110-167 | A row of the placed grid has one tile per column. |
| Board.PlaceRow | scripts.js:110-167 | The inner placement loop fills one row with the tile `TileAt` gives each cell, path pipes classified by the page's rule. |
| Board.PlaceTiles | scripts.js:108-168 | The placement loops fill a size by size grid whose every cell is the tile `TileAt` gives it, path pipes classified by the page's rule. |
| Board.TerminalsAtPathEnds | scripts.js:112-117 | On a grid at least two high, the source is exactly at the first path entry, in the bottom row, and the target exactly at the last, in row 0. |
| Board.InteriorHasTwoNeighbours | scripts.js:122-131 | A path cell other than the two ends has a nonzero vector to each of two neighbours. |
| Board.PathCellTile | scripts.js:119-157 | Such a cell gets the pipe the page's rule (`Tiles.ClassifyAsWritten`) gives for its predecessor and successor vectors. Its solution is that rule's rotation and its displayed rotation is the drawn one, both among the four. |
| Board.PathCellConnects | scripts.js:122-142 | In a path with no repeats, where consecutive entries are grid neighbours: at its solution, an elbow opens towards exactly its predecessor and successor, and a straight towards neither of them. |
| Board.OffPathTile | scripts.js:158-162 | A cell off the path gets the drawn tile type and rotation and no solution. |
| Board.SolutionExactlyOnPath | scripts.js:112-163 | A cell has a solution exactly when it is on the path and is neither source nor target. |
| Board.LayoutWellFormed | scripts.js:108-168 | The placed grid is size by size. Every rotation is one of the four, and each solution is one of the four and sits on a pipe. |
| Board.Solved | scripts.js:203-213 | The win condition: every tile that has a solution shows it. `ScanSolved` is proved to compute it, and `SolvedIgnoresDecoys`, `ClickOnPathUnsolves` and `ClicksSolve` state how clicks affect it. |
| Board.ScanSolved | scripts.js:203-213 | The solved flag loop returns true exactly when every tile that has a solution shows it. |
| Board.SolvedIgnoresDecoys | scripts.js:207-211 | The win check does not depend on tiles without a solution. |
| Board.HideDecoysEffect | scripts.js:216-223 | The win reveal hides exactly the tiles with no solution that are neither source nor target, changes nothing else, and keeps the grid solved. |
| Board.HideDecoys | scripts.js:214-223 | The win reveal: each decoy is hidden. `HideDecoysEffect` states which tiles change and that nothing else does. |
| Board.HideNonPath | scripts.js:214-223 | The hiding loop computes the win reveal. |
| Board.RowDecoysFacts | scripts.js:261-266 | The decoys collected from a row are exactly the decoys of that row, each once. |
| Board.DecoysBeforeFacts | scripts.js:260-267 | The decoys collected from the first rows are exactly the decoys of those rows, each once. |
| Board.DecoyList | scripts.js:259-267 | The hint's list holds exactly the decoy cells, each once. |
| Board.CollectRow | scripts.js:261-266 | The inner collecting loop lists the decoys of one row, left to right. |
| Board.CollectDecoys | scripts.js:259-267 | The collecting loop builds that list. |
| Board.Drawn | scripts.js:268-274 | The entries `n` splice draws take from a list, in order; `DrawnStep` and `DrawnFromList` state its properties and `PickDecoys` is proved to compute it. |
| Board.DrawnFromList | scripts.js:268-274 | n draws without replacement take n entries, none more often than it is in the list. |
| Board.DrawnStep | scripts.js:271-273 | One draw takes the entry at its index and leaves the draws after it fitting the shortened list. |
| Board.PickDecoys | scripts.js:268-274 | The splicing loop hides the `floor(n / 2)` cells the draws pick one after another from the shrinking list. |
| Board.SubMultisetDistinct | scripts.js:270-274 | Cells drawn without replacement from a list without repeats are all different. |
| Board.ChooseHint | scripts.js:257-275 | The hint picks the cells the draws select from the decoy list: `floor(n / 2)` of them, all different, all decoys, so never a path cell, source or target. |
| Board.HideCells | scripts.js:270-274 | The grid with the listed cells hidden; `HideCellsEffect` states what changes. |
| Board.HideCellsEffect | scripts.js:270-274 | Hiding cells flags exactly those cells, changes no kind, rotation or solution, keeps the grid well formed and keeps whether it is solved. |
| Board.RotateAt | scripts.js:38-41 | A click on a grid cell: a pipe turns a quarter, the source and target stay as they are. `RotateAtEffect` and `RotateAtFourTimes` state its properties. |
| Board.RotateAtEffect | scripts.js:38-43 | A click changes the rotation of the clicked pipe only, by one quarter turn. |
| Board.RotateAtFourTimes | scripts.js:38-41 | Four clicks on one tile give back the grid. |
| Board.ClickOnDecoyIrrelevant | scripts.js:38-42 | Clicking a tile without a solution never changes whether the puzzle is solved. |
| Board.ClickOnPathUnsolves | scripts.js:38-42 | On a solved grid, clicking a tile that has a solution unsolves it. |
| Board.ClicksSolve | scripts.js:38-42 | When every other tile is solved, the number of clicks from `ClicksNeeded`, at most three, solves the grid. |
| Session.TickClock | scripts.js:69-77 | A tick changes nothing unless the timer runs and the game is active. Otherwise it counts down by one, and the game stays active and the timer running exactly while time is left. |
| Session.CountdownExpiresOnce | scripts.js:69-77 | From `limit` seconds, the game stays active for `limit - 1` ticks and ends with 0 left on tick `limit`. After that it never changes. |
| Session.StaleCountdownEndsAtOnce | scripts.js:172-177 | An active game with at most one second left ends at the next tick. |
| Session.Difficulty | scripts.js:12-16 | Sizes 4 to 8, times 30 to 60 seconds; only the easy level has size 4. |
| Session.Game.constructor | scripts.js:17-22 | The initial load starts easy, 4 by 4 with 60 seconds, active with the timer running, on the grid the draws build. |
| Session.Game.SetDifficulty | scripts.js:59-64 | Choosing a level sets its size and time, then resets. |
| Session.Game.BuildGrid | scripts.js:80-170 | It builds the grid the placement rule gives for the walk the draws make, and the grid is well formed. |
| Session.Game.Reset | scripts.js:172-180 | The game becomes active with the timer running on a new grid. The time left stays as it was. |
| Session.Game.GameOver | scripts.js:182-183 | The game becomes inactive. |
| Session.Game.Tick | scripts.js:69-77 | The game's countdown state becomes the tick function of the old one. |
| Session.Game.CheckFlow | scripts.js:200-230 | An inactive game is left alone. Otherwise the result is whether the grid is solved, and a solved grid gets the win reveal. |
| Session.Game.SubmitSolution | scripts.js:232-255 | Reports whether the game is active and solved; changes nothing. |
| Session.Game.Click | scripts.js:38-43 | A visible pipe turns a quarter even in an inactive game, then the win check runs on the turned grid. Clicking the source, the target or a hidden tile does nothing. |
| Session.Game.ShowHint | scripts.js:257-275 | Hides exactly the drawn decoys, half of all decoys rounded down, all different, whether or not the game is active. |
| Session.ExampleWalk | scripts.js:87-105 | On a 4 by 4 grid from column 2, the draws left, up, up, up make the path (3,2) (3,1) (2,1) (1,1) (0,1). |
| Session.ExamplePathReached | scripts.js:87-105 | That path is a finished walk. |
| Session.ExamplePuzzle | scripts.js:108-157 | On that path the source and target are at the ends. (3,1) is an elbow solved at 0, and (2,1) and (1,1) are straights solved at 90, which the art draws horizontal across the vertical path. |

## Behaviour of the code worth knowing

- Recorded path entries need not be grid neighbours. A sideways move onto an already recorded cell
  moves the walker but records nothing, so the next recorded cell can be two columns from the previous
  entry (`PathWalk.NonAdjacentEntries`). The classifier then sees a vector that is not a unit step, and
  `Board.PathCellConnects` holds only where consecutive entries are neighbours. The path still starts
  in the bottom row, ends in row 0, stays in the grid, never repeats and never goes down.
- The walk has no bound on its length. It ends with probability one, but no fixed number of draws
  guarantees it (`PathWalk.SidewaysNeverReaches`).
- Rotation convention: at rotation 0 the straight is drawn vertical (open up and down) and the elbow
  with arms up and right (scripts.js:33-35); CSS `rotate` turns both clockwise. `Tiles.Openings` is
  that convention. The unused `directions` table (scripts.js:7-10) fits it when its pairs are read as
  (x, y) with y upwards. The page's straight rule does not fit it; see Findings.
- A path tile's displayed rotation is drawn from all four rotations, so it can already equal its
  solution.
- The click handler (scripts.js:38-43) still turns a pipe after the game is over; only the win check
  is disabled then. In the page `gameOver` also covers everything with a fullscreen overlay, which
  would take the clicks; the model leaves the overlay out, so this is a statement about the handler.
- Resetting does not restore `timeLeft`: a game reset after timing out ends again at the first tick
  (`Session.StaleCountdownEndsAtOnce`).
- The hint does not look at `gameActive`.

## Findings

| source | as written | input that shows it | evidently intended | confidence | as-written member | corrected member |
|---|---|---|---|---|---|---|
| scripts.js:135, scripts.js:145-151 | A straight gets rotation 0 when its first neighbour vector has zero row (horizontal neighbours), 90 otherwise; but the straight art at rotation 0 is a vertical bar (scripts.js:33), so every solved straight is drawn across the path | a cell with neighbours below and above, vectors (1,0) and (-1,0): solved at 90, drawn open left and right | rotation 0 for vertical neighbours and 90 for horizontal ones, so the solved straight opens towards both neighbours | not executed; high | Tiles.AsWrittenStraightCrossesPath | Tiles.ClassifyConnects |

The placement (`Tiles.ClassifyDirs`, `Board.TileAt`) follows the page's rules, `Tiles.ClassifyAsWritten`
and `Tiles.ClassifyEndAsWritten`. On the grid, `Board.PathCellConnects` shows the result: elbows
connect and straights do not. The corrected rules are `Tiles.Classify` and `Tiles.ClassifyEnd`, and
`Tiles.AsWrittenTurnsStraights` shows that the two pairs differ only in the straights' rotation. `Tiles.ClassifyEndConnects`
proves of the corrected one-neighbour rule what `Tiles.ClassifyConnects` proves of the two-neighbour
one, and `Tiles.AsWrittenEndCrossesPath` is its as-written counterpart. The puzzle's
win check compares rotations with solutions, so it is unaffected either way.

## Left out

- Rendering (`createTile`'s SVG images, CSS transforms, the grid element, the timer and message texts,
  the game-over overlay, button visibility, `location.reload`) is left out; only each tile's state is modelled.
- Random numbers are parameters; the model does not state their distribution.
- `setInterval`, `clearInterval` and `setTimeout` are a flag and a `Tick` method; one tick is one firing.
- `nextLevel`, `levels` and `currentLevel` are not defined in this file, so the delayed level change
  after a win and `updateLevelIndicator` are left out. The model keeps the solved grid and the
  running timer as they are then. `setTimeout(nextLevel, 1200)` (scripts.js:228, 251) is the last
  statement of its handler, so even if `nextLevel` is undefined the throw comes after every modelled
  change.
- `parseInt` on the stored rotations is left out: rotations are stored as numbers here.
- Source and target tiles have no rotation in the page; in the model their rotation is 0 and no click
  changes it.
- Visibility `hidden` is a `hidden` flag on the tile. A hidden element receives no mouse clicks in
  the browser, so `Session.Game.Click` ignores hidden tiles; the rest of the page's event handling is left out.
- Session.Game.BuildGrid: requires the draws to finish the walk. The page's loop never returns
  otherwise, and a finite list of draws may run out first (`OutOfChoices`) or hold an index past the
  candidates (`BadChoice`).
- Session.Game.Reset: requires the same of its draws, for the same reason.
- Session.Game.Reset: assumes the page supplies `currentLevel` and `levels`, which
  `updateLevelIndicator` (scripts.js:56), the last call of `buildGrid` (scripts.js:169), reads. If
  they are undefined that call throws after the tiles are placed, `resetGame` stops before
  `startTimer` (scripts.js:177), also on the initial load (scripts.js:278), and the countdown never
  starts; the model's `ensures timerRunning` does not capture that.
- Session.Game.constructor: makes the same assumption as `Session.Game.Reset`, since it ends with a reset.
- Session.Game.SetDifficulty: requires the same of its draws, for the same reason.
- Session.Game.constructor: requires the same of its draws, for the same reason.
