# Maze-Solver in Dafny

A model of the maze solver in `main.py`. The solver reads a maze drawn in
text and runs a right-hand wall follower on it. The model covers four parts:

- **The glyph codec** (`EFloor`). There are four kinds of cell: floor, wall,
  start and goal. They are drawn as `' '`, `'*'`, `'o'` and `'x'`.
- **The maze text format** (`Maze.parse`, `Maze.to_string`, `_validate`,
  `_find_xy`). A maze is a grid indexed `[row][column]` whose rows may differ
  in length. The start and the goal are found by scanning the grid in
  row-major order.
- **The orientation algebra** (`Point2D`, `Vector2D`, `EOrientation`). There
  are four compass orientations, each with a unit vector, and quarter and
  half turns between them.
- **The player and the wall follower** (`Player`, `MazeManager`).
  - The player is a class whose position and orientation are updated in
    place.
  - Each turn of `process_players_trial` records the current pose in a
    history.
  - It then tries a right turn, going straight and a left turn, in that
    order. Otherwise it turns around. Then it steps one cell.
  - The run stops at the goal, or reports that there is no solution once a
    pose comes back.

Modules, one file each:

| file | module | contents |
|---|---|---|
| `wrappers.dfy` | `Wrappers` | `Option` and `Result` |
| `geometry.dfy` | `Geometry` | points, vectors, orientations and turns |
| `floors.dfy` | `Floors` | the glyph table |
| `maze.dfy` | `MazeText` | splitting into lines, parsing, validation, marker search and rendering |
| `agent.dfy` | `Agent` | the `Player` class and `Pose` |
| `navigation.dfy` | `Navigation` | the decision chain, the run as a function (`Trial`), and the `MazeManager` class whose `ProcessPlayersTrial` loop is proved equal to it |
| `scenarios.dfy` | `Scenarios` | the third demonstration maze, transition by transition |

What the model returns in place of printing:

- `MazeManager.player_step_forward` prints where the player stands and where
  it faces before each step. The model returns these reports as a sequence of
  poses: the *trace*. Each report pairs the position before the step with the
  orientation after the turn.
- The final message is returned as a `Verdict`: `Exit(position)` or
  `NoSolution`.
- `_validate` exits the process on a missing marker. `EFloor.of` raises on an
  unknown character. Both become an `Err` of `Parse`.

## Model

| member | source | states |
|---|---|---|
| `Floors.ToChar` | main.py:14-19 | Every kind is drawn by one of the four glyphs, never by a line break. |
| `Floors.Of` | main.py:21-27 | A character reads as a kind exactly when it is one of the four glyphs. The kind read back is drawn by that same character. |
| `Floors.GlyphRoundTrip` | main.py:14-27 | Reading the glyph of a kind gives the kind back. Two kinds share a glyph only if they are equal. |
| `Geometry.AddCancels` | main.py:42-45 | Displacing a point by a vector and then by its opposite returns the point. Displacing two points by the same vector keeps them distinct. |
| `Geometry.Unit` | main.py:91-95 | Each orientation's vector moves exactly one coordinate, by one. |
| `Geometry.UnitInjective` | main.py:91-95 | Different orientations have different vectors. |
| `Geometry.TurnRight` | main.py:97-102 | The right turn maps unit vector (dx, dy) to (dy, -dx), a quarter turn clockwise in row/column coordinates. |
| `Geometry.TurnLeft` | main.py:104-109 | The left turn maps (dx, dy) to (-dy, dx). |
| `Geometry.TurnAround` | main.py:111-116 | The half turn reverses the unit vector. |
| `Geometry.FourRightTurns` | main.py:97-102 | Four right turns are the identity. |
| `Geometry.LeftUndoesRight` | main.py:97-109 | A left turn and a right turn undo each other, in both orders. |
| `Geometry.AroundIsTwoTurns` | main.py:97-116 | A half turn is two right turns, and also two left turns. It undoes itself. |
| `Geometry.ChoicesAreAllOrientations` | main.py:97-116 | Right, straight, left and back are pairwise distinct and cover every orientation. |
| `MazeText.SplitLines` | main.py:65 | No line holds a line break. A text has no lines exactly when it is empty. |
| `MazeText.Join` | main.py:58 | The text starts with the first line, and with the first line and a line break when more lines follow. |
| `MazeText.SplitJoin` | main.py:55-65 | Splitting joined lines gives the lines back, when no line holds a break and the last line is not empty. |
| `MazeText.JoinSplit` | main.py:55-65 | Joining the lines of a text gives the text back, without one trailing line break. |
| `MazeText.JoinChars` | main.py:58 | A joined text holds exactly the characters of its lines, plus the separator when there are at least two lines. |
| `MazeText.LineChars` | main.py:65 | A character other than a line break is in a text exactly when it is in one of its lines. |
| `MazeText.ParseRow` | main.py:66 | A line reads as kinds exactly when every character is a glyph. The result has the line's length and is drawn as the line. A failure names the first character that is not a glyph. |
| `MazeText.ParseGrid` | main.py:66 | Every line reads as kinds exactly when all characters are glyphs. The grid has the lines' shape and is drawn as those lines. A failure names the first non-glyph character in row-major order: every earlier line reads, and the failing line's own first bad character is reported. |
| `MazeText.RenderRow` | main.py:56-57 | The drawn row has one character per cell and no line break, and each character reads back as its cell's kind. |
| `MazeText.RenderRows` | main.py:56-57 | One drawn line per row, each of that row's length and without a line break, and every character reads back as its cell's kind. |
| `MazeText.ParseRendered` | main.py:55-66 | Reading drawn rows gives the grid back. |
| `MazeText.RenderParsed` | main.py:55-66 | Drawing the grid read from lines gives those lines back. |
| `MazeText.Validate` | main.py:72-82 | No error exactly when both markers occur. Missing start when `'o'` is absent, checked first. Missing goal when only `'x'` is absent. |
| `MazeText.FirstRowWith` | main.py:86 | The first row, from the given one on, that holds the kind: it holds it, and no row before it does. |
| `MazeText.IndexOf` | main.py:87 | The first column, from the given one on, holding the kind: it holds it, and no column before it does. |
| `MazeText.FindXY` | main.py:84-88 | The result is the first cell of the kind in row-major order: first row holding it, first column in that row. |
| `MazeText.MarkerInGrid` | main.py:61-88 | A marker glyph in a text that parses shows up as a cell of that kind, so the marker search succeeds. |
| `MazeText.Parse` | main.py:61-70 | Missing start is reported exactly when `'o'` is absent, and missing goal exactly when `'o'` is present and `'x'` absent, as `_validate` orders them. An invalid character is one the text holds that is neither a glyph nor a line break, and it is the first such character in row-major order of the lines. On success, the rows draw as the text's lines and start and goal are the first cells of their kinds. |
| `MazeText.ParseSucceedsIff` | main.py:61-70 | A text parses exactly when it holds both markers and every other character is a glyph or a line break. |
| `MazeText.GlyphsOnly` | main.py:65-66 | The lines of a text read as kinds exactly when every character other than a line break is a glyph. |
| `MazeText.ToString` | main.py:55-59 | The drawing holds only glyphs and line breaks, and holds a line break exactly when the maze has two rows or more. |
| `MazeText.ParseThenRender` | main.py:55-70 | Drawing a parsed maze gives its text back, less at most one final line break. |
| `MazeText.RenderThenParse` | main.py:55-70 | Parsing the drawing of a grid with both markers and a non-empty last row gives the same grid, with the first start and goal cells. |
| `MazeText.RoundTrip` | main.py:55-70 | A parsed maze whose last row is not empty parses back to itself once drawn. |
| `Agent.Player.constructor` | main.py:128-130 | The new player has the given position and orientation. |
| `Agent.Player.ToPose` | main.py:151-152 | The snapshot holds the player's current position and orientation. |
| `Agent.Player.IsLocatedAt` | main.py:132-133 | The player is at a point exactly when its snapshot's position is that point, whatever its orientation. |
| `Agent.Player.TurnToTheRight` | main.py:135-136 | The orientation becomes its right turn. The position is unchanged. |
| `Agent.Player.KeepOrientation` | main.py:138-140 | The pose is unchanged. |
| `Agent.Player.TurnToTheLeft` | main.py:142-143 | The orientation becomes its left turn. The position is unchanged. |
| `Agent.Player.TurnAround` | main.py:145-146 | The orientation becomes its half turn. The position is unchanged. |
| `Agent.Player.StepForward` | main.py:148-149 | The position moves one cell along the orientation. The orientation is unchanged. |
| `Navigation.Passable` | main.py:208-209 | The player may enter a cell exactly when it is floor, start or goal, that is, anything but a wall. |
| `Navigation.OpenBehind` | main.py:171-190 | In a walled maze, a step into an open cell lands where the cell behind is the one just left, so the new cell can be left again. |
| `Navigation.CanGoToward` | main.py:200-227 | The player can go toward a direction exactly when the cell there is inside the grid and not a wall. |
| `Navigation.Rank` | main.py:171-190 | Every direction has a place among the four tries (right, straight, left, back). |
| `Navigation.NextOrientation` | main.py:171-190 | The chosen direction is open. Every direction tried before it is a wall. |
| `Navigation.TakesRight` | main.py:171-174 | Whenever the right is open, the player turns right and steps there. |
| `Navigation.TakesStraight` | main.py:176-179 | When the right is a wall and ahead is open, the player steps straight on. |
| `Navigation.TakesLeft` | main.py:181-184 | When right and ahead are walls and the left is open, the player turns left and steps there. |
| `Navigation.TakesBack` | main.py:186-190 | When right, ahead and left are walls, the player turns around and steps back. |
| `Navigation.Step` | main.py:171-190 | A transition lands, in the new orientation, on a neighbouring cell that can be left again, and the cell behind the player is the one it came from. |
| `Navigation.Event` | main.py:218-222 | The report is the player's position before the step, facing an open direction, and the step goes one cell that way. |
| `Navigation.CellPosesSpec` | main.py:165-169 | The poses the history can hold are the in-bounds poses, at most four per cell, so the loop terminates. |
| `Navigation.FreshPoseShrinks` | main.py:167-169 | Adding a pose not yet in the history shrinks the set of poses left to visit by one. |
| `Navigation.Trial` | main.py:160-195 | The run reports one event per recorded pose and ends on a cell it could leave. It stops only at the goal or on a repeated pose: the verdict is `Exit(goal)` or `NoSolution`. The verdict is `Exit` exactly when it ends on the goal. It is `NoSolution` exactly when it ends off the goal on a pose already recorded. A start on the goal exits at once; a start on a recorded pose off the goal stops at once. |
| `Navigation.WalkIsWallSafe` | main.py:171-222 | Every reported move goes between two cells that are not walls. Each starts where the previous one ended, the first at the start and the final pose at the end of the last. |
| `Navigation.TrialContinues` | main.py:165-190 | A run that is neither on the goal nor on a recorded pose records the pose, reports one event and continues from the next pose. |
| `Navigation.TrialWalks` | main.py:165-190 | The recorded poses are the walk the transition function takes from the start. The events are what the player reports at each of them. |
| `Navigation.TrialRecordsFreshPoses` | main.py:165-169 | Only poses off the goal and not yet in the history are recorded, never one twice, at most one per pose left to visit. |
| `Navigation.TrialStops` | main.py:165-167 | A run starting on the goal or on a recorded pose stops at once, with the verdict the loop's exit chooses. |
| `Navigation.ShutInGoal` | main.py:165-195 | A goal with no open cell beside it is never reached: the run ends with no solution. |
| `Navigation.TrialBound` | main.py:160-195 | A run from an empty history takes at most four transitions per grid cell. |
| `Navigation.ExtendStep` | main.py:165-190 | One turn of the loop moves one transition from the rest of the run into the part already done, and shrinks the poses left to visit. |
| `Navigation.MazeManager.constructor` | main.py:155-158 | The manager holds the given maze and player. |
| `Navigation.MazeManager.IsPlayerLocatedAtGoal` | main.py:197-198 | True exactly when the player's position is the maze's goal. |
| `Navigation.MazeManager.MovePlayer` | main.py:171-222 | One turn of the loop body: the player's new pose is `Step` of its old pose, and the report is the old position with the chosen orientation. |
| `Navigation.MazeManager.ProcessPlayersTrial` | main.py:160-195 | The loop's trace, its verdict and the player's final pose are those of `Trial` from the initial pose with an empty history. |
| `Scenarios.DetourWalled` | main.py:262-268 | The third demonstration maze is walled. |
| `Scenarios.DetourCellSurrounded` | main.py:262-268 | Every open cell of the third maze can be left. |
| `Scenarios.DetourMove0` | main.py:262-274 | From the start facing North, the player goes straight up, away from the goal. |
| `Scenarios.DetourMove1` | main.py:262-274 | Next it turns right into the East dead end. |
| `Scenarios.DetourMove2` | main.py:262-274 | It turns around in the East dead end. |
| `Scenarios.DetourMove3` | main.py:262-274 | It turns right into the North dead end. |
| `Scenarios.DetourMove4` | main.py:262-274 | It turns around in the North dead end. |
| `Scenarios.DetourMove5` | main.py:262-274 | It turns right into the West dead end. |
| `Scenarios.DetourMove6` | main.py:262-274 | It turns around in the West dead end. |
| `Scenarios.DetourMove7` | main.py:262-274 | It turns right, back down to the start cell, now facing South. |
| `Scenarios.DetourMove8` | main.py:262-274 | It steps straight onto the goal. |
| `Scenarios.SpiralWalled` | main.py:251-259 | The second demonstration maze is walled and its start cell can be left, so the model covers it; its goal has no open neighbour. |
| `Scenarios.SpiralHasNoSolution` | main.py:251-259 | The run on the second maze from the start facing North ends with no solution. |

## Left out

- **Printing.** The opening "Current position" line, the per-step reports and the final message are not printed. The reports are returned as the trace and the message as the `Verdict`. `Point2D.__str__` and `EOrientation.__str__` (main.py:39-40, 118-119) are not modelled.
- **`sys.exit` in `_validate`.** It becomes an `Err` result. The `ValueError` of `EFloor.of` becomes `Err(InvalidCharacter(c))`, reporting the first offending character row by row.
- **The line separator.** `os.linesep` is fixed to `"\n"`.
- **`str.splitlines`.** It is modelled as splitting on `'\n'` only. Other line boundaries that Python recognises (`"\r"`, `"\r\n"`, form feed and so on) are treated as ordinary characters, which are then invalid glyphs.
- **The `ValueError` at the end of `EFloor.to_char`** (main.py:19). It cannot be reached with four kinds, so it has no counterpart.
- **The `TypeError` in `Point2D.__add__`** (main.py:42-45). The types rule it out.
- **Grid bounds.**
  - `_player_can_go` indexes the grid with raw coordinates. Python would wrap a negative index around, or raise `IndexError` past the end.
  - The about-face is taken without checking for a wall, so a player boxed in on all four sides would step into a wall.
  - The navigation members instead require `Walled`: every non-wall cell has all four neighbours inside the grid. They also require the player's first cell to have an open neighbour (`Leavable`). After each step the cell behind the player is the one it left, so the about-face is always open. Mazes with an open cell on the grid's edge, and starts shut in on all four sides, are not modelled.
- **`_find_xy` raising `IndexError` when a marker is absent.** It cannot happen after `_validate`. `FindXY` requires the marker to be present, and `MarkerInGrid` proves that `Parse` meets this.
- **`player_can_go_backward`** (main.py:232-235). The original never calls it.
- **The `MazeManager` helper methods.** The wrappers `player_can_go_right/forward/left`, `_player_can_go` and the `player_turn_*` / `player_keep_orientation` methods are folded into `CanGoToward` and `MovePlayer`, which call the `Player` methods directly.
- **The `__main__` block.** The first demonstration maze and the parsing and printing of the demonstration texts are not modelled. The grids of the second and third mazes are stated in `Scenarios.IsSpiral` and `Scenarios.IsDetour`.
- **The full run of the third maze.** It is stated transition by transition (`DetourMove0`..`DetourMove8`). It is not chained into one statement about `Trial`, because unfolding the run on a literal grid is beyond the solver's budget.
- **`Validate`** checks for the glyphs `ToChar(Start)` and `ToChar(Goal)`, as the original does. Its contract spells them `'o'` and `'x'`.
- **Line breaks.** `ParseThenRender` gives the text back only up to one final line break. `RoundTrip` requires a non-empty last row, because an empty last line is lost when the rows are joined and split again.
