/**
 * The wall-follower (class MazeManager). From its current pose the player
 * tries, in this order, a right turn, going straight and a left turn, taking
 * the first whose next cell is not a wall, and otherwise turns around without
 * looking; then it steps one cell. The run stops at the goal, or with no
 * solution as soon as a pose comes back.
 *
 * The original indexes the grid with the raw coordinates of the next cell,
 * where a negative index would silently wrap around. The model asks for a
 * walled maze instead: the four neighbours of every cell that is not a wall
 * lie inside the grid. The player must also be able to leave its first cell;
 * after that, the cell behind it is always the one it has just left.
 */
module Navigation {
  import opened Geometry
  import opened Floors
  import opened MazeText
  import opened Agent

  // ---------------------------------------------------------------- cells

  predicate InBounds(g: Grid, p: Point)
  {
    0 <= p.x < |g| && 0 <= p.y < |g[p.x]|
  }

  /** MazeManager._player_can_go: the player may walk on every kind of cell
      but a wall, the start and the goal included. */
  predicate Passable(g: Grid, p: Point)
    requires InBounds(g, p)
    ensures Passable(g, p) <==> g[p.x][p.y] in {Normal, Start, Goal}
  {
    g[p.x][p.y] != Wall
  }

  /** A cell the player may stand on. */
  predicate Standable(g: Grid, p: Point)
  {
    InBounds(g, p) && Passable(g, p)
  }

  /** The cell next to `p` in direction `d`. */
  function Neighbour(p: Point, d: Orientation): Point
  {
    Add(p, Unit(d))
  }

  /** The four neighbours of `p` are inside the grid. */
  predicate NeighboursInBounds(g: Grid, p: Point)
  {
    InBounds(g, Neighbour(p, North)) && InBounds(g, Neighbour(p, West)) &&
    InBounds(g, Neighbour(p, South)) && InBounds(g, Neighbour(p, East))
  }

  /** All four neighbours of `p` are inside the grid, and one is not a wall. */
  predicate Surrounded(g: Grid, p: Point)
  {
    NeighboursInBounds(g, p) &&
    (Passable(g, Neighbour(p, North)) || Passable(g, Neighbour(p, West)) ||
     Passable(g, Neighbour(p, South)) || Passable(g, Neighbour(p, East)))
  }

  /** The maze is walled in: the neighbours of every cell that is not a wall
      are inside the grid. A cell may still be shut in by walls on all sides. */
  ghost predicate Walled(g: Grid)
  {
    forall p {:trigger NeighboursInBounds(g, p)} :: Standable(g, p) ==> NeighboursInBounds(g, p)
  }

  /** A cell the player can stand on and leave again. */
  predicate Leavable(g: Grid, p: Point)
  {
    Standable(g, p) && Surrounded(g, p)
  }

  /** A step into an open cell of a walled maze lands on a cell the player
      can leave again: the cell behind it is the one it has just left. */
  lemma OpenBehind(g: Grid, p: Point, d: Orientation)
    requires Walled(g) && Standable(g, p) && Standable(g, Neighbour(p, d))
    ensures Neighbour(Neighbour(p, d), TurnAround(d)) == p
    ensures Leavable(g, Neighbour(p, d))
  {
    var q := Neighbour(p, d);
    AddCancels(p, p, Unit(d));
    assert NeighboursInBounds(g, q);
    assert Passable(g, Neighbour(q, TurnAround(d)));
  }

  // ------------------------------------------------------------- one move

  /** player_can_go_right / _forward / _left: can the player, standing at the
      pose, step in direction `d`? */
  predicate CanGoToward(g: Grid, pose: Pose, d: Orientation)
    requires Leavable(g, pose.position)
    ensures CanGoToward(g, pose, d) <==> Standable(g, Neighbour(pose.position, d))
  {
    Passable(g, Neighbour(pose.position, d))
  }

  /** The order in which directions are tried: right, straight, left, back. */
  function Priority(o: Orientation): seq<Orientation>
  {
    [TurnRight(o), o, TurnLeft(o), TurnAround(o)]
  }

  /** The place of direction `d` in the priority order of `o`. */
  function Rank(o: Orientation, d: Orientation): (k: nat)
    ensures k < 4 && Priority(o)[k] == d
  {
    ChoicesAreAllOrientations(o, d);
    if d == TurnRight(o) then 0
    else if d == o then 1
    else if d == TurnLeft(o) then 2
    else 3
  }

  /** The orientation the decision chain of process_players_trial picks: the
      first open direction in priority order. The about-face is taken without
      a check, and it is open because the player's cell can be left. */
  function NextOrientation(g: Grid, pose: Pose): (d: Orientation)
    requires Leavable(g, pose.position)
    ensures CanGoToward(g, pose, d)
    ensures forall j :: 0 <= j < Rank(pose.orientation, d) ==> !CanGoToward(g, pose, Priority(pose.orientation)[j])
  {
    var o := pose.orientation;
    ChoicesAreAllOrientations(o, o);
    if CanGoToward(g, pose, TurnRight(o)) then TurnRight(o)
    else if CanGoToward(g, pose, o) then o
    else if CanGoToward(g, pose, TurnLeft(o)) then TurnLeft(o)
    else TurnAround(o)
  }

  /** The four cases of the decision chain, one lemma each: the right turn
      whenever it is open; straight ahead when only the right is closed; the
      left turn when right and straight are closed; otherwise the about-face. */
  lemma TakesRight(g: Grid, pose: Pose)
    requires Walled(g) && Leavable(g, pose.position)
    requires CanGoToward(g, pose, TurnRight(pose.orientation))
    ensures Step(g, pose) == Pose(Neighbour(pose.position, TurnRight(pose.orientation)), TurnRight(pose.orientation))
  {
  }

  lemma TakesStraight(g: Grid, pose: Pose)
    requires Walled(g) && Leavable(g, pose.position)
    requires !CanGoToward(g, pose, TurnRight(pose.orientation)) && CanGoToward(g, pose, pose.orientation)
    ensures Step(g, pose) == Pose(Neighbour(pose.position, pose.orientation), pose.orientation)
  {
  }

  lemma TakesLeft(g: Grid, pose: Pose)
    requires Walled(g) && Leavable(g, pose.position)
    requires !CanGoToward(g, pose, TurnRight(pose.orientation)) && !CanGoToward(g, pose, pose.orientation)
    requires CanGoToward(g, pose, TurnLeft(pose.orientation))
    ensures Step(g, pose) == Pose(Neighbour(pose.position, TurnLeft(pose.orientation)), TurnLeft(pose.orientation))
  {
  }

  lemma TakesBack(g: Grid, pose: Pose)
    requires Walled(g) && Leavable(g, pose.position)
    requires !CanGoToward(g, pose, TurnRight(pose.orientation)) && !CanGoToward(g, pose, pose.orientation)
    requires !CanGoToward(g, pose, TurnLeft(pose.orientation))
    ensures Step(g, pose) == Pose(Neighbour(pose.position, TurnAround(pose.orientation)), TurnAround(pose.orientation))
  {
  }

  /** One transition: turn to the chosen orientation, then step. The player
      lands on a cell that is not a wall, next to where it stood. */
  function Step(g: Grid, pose: Pose): (next: Pose)
    requires Walled(g) && Leavable(g, pose.position)
    ensures Leavable(g, next.position)
    ensures next.position == Neighbour(pose.position, next.orientation)
    ensures Neighbour(next.position, TurnAround(next.orientation)) == pose.position
  {
    var d := NextOrientation(g, pose);
    OpenBehind(g, pose.position, d);
    Pose(Neighbour(pose.position, d), d)
  }

  /** What player_step_forward reports: where the player stands and the
      orientation it faces once it has turned, just before it steps. */
  function Event(g: Grid, pose: Pose): (e: Pose)
    requires Walled(g) && Leavable(g, pose.position)
    ensures e.position == pose.position && CanGoToward(g, pose, e.orientation)
    ensures Step(g, pose) == Pose(Neighbour(e.position, e.orientation), e.orientation)
  {
    Pose(pose.position, NextOrientation(g, pose))
  }

  // ------------------------------------------------------- the pose space

  ghost function PosesAt(p: Point): set<Pose>
  {
    {Pose(p, North), Pose(p, West), Pose(p, South), Pose(p, East)}
  }

  /** Every pose in row `x`, columns 0 to n - 1. */
  ghost function RowPoses(x: int, n: nat): set<Pose>
  {
    if n == 0 then {} else RowPoses(x, n - 1) + PosesAt(Point(x, n - 1))
  }

  /** Every pose on a cell of the grid. */
  ghost function CellPoses(g: Grid): set<Pose>
  {
    set x, y, o | 0 <= x < |g| && 0 <= y < |g[x]| && o in {North, West, South, East} :: Pose(Point(x, y), o)
  }

  /** The same poses, gathered row by row, which bounds their number. */
  ghost function PosesUpTo(g: Grid): set<Pose>
    decreases |g|
  {
    if g == [] then {} else PosesUpTo(g[..|g| - 1]) + RowPoses(|g| - 1, |g[|g| - 1]|)
  }

  /** The number of cells of a (ragged) grid. */
  function CellCount(g: Grid): nat
    decreases |g|
  {
    if g == [] then 0 else CellCount(g[..|g| - 1]) + |g[|g| - 1]|
  }

  lemma {:induction false} RowPosesSpec(x: int, n: nat, q: Pose)
    ensures q in RowPoses(x, n) <==> q.position.x == x && 0 <= q.position.y < n
    ensures |RowPoses(x, n)| <= 4 * n
  {
    if n > 0 {
      RowPosesSpec(x, n - 1, q);
      var p := Point(x, n - 1);
      assert q == Pose(q.position, q.orientation);
      assert q in PosesAt(p) <==> q.position == p by {
        match q.orientation
        case North =>
        case West =>
        case South =>
        case East =>
      }
      assert |PosesAt(p)| <= 4;
    }
  }

  lemma {:induction false} PosesUpToSpec(g: Grid, q: Pose)
    ensures q in PosesUpTo(g) <==> InBounds(g, q.position)
    ensures |PosesUpTo(g)| <= 4 * CellCount(g)
    decreases |g|
  {
    if g != [] {
      var n := |g| - 1;
      var front := g[..n];
      PosesUpToSpec(front, q);
      RowPosesSpec(n, |g[n]|, q);
      assert InBounds(g, q.position) <==> InBounds(front, q.position) || (q.position.x == n && 0 <= q.position.y < |g[n]|);
    }
  }

  /** The poses on the cells of a grid are the poses whose position is in
      bounds, and there are at most four per cell. */
  lemma CellPosesSpec(g: Grid, q: Pose)
    ensures q in CellPoses(g) <==> InBounds(g, q.position)
    ensures |CellPoses(g)| <= 4 * CellCount(g)
  {
    forall r: Pose
      ensures r in CellPoses(g) <==> r in PosesUpTo(g)
    {
      PosesUpToSpec(g, r);
      if InBounds(g, r.position) {
        assert r == Pose(Point(r.position.x, r.position.y), r.orientation);
        assert r.orientation in {North, West, South, East} by {
          match r.orientation
          case North =>
          case West =>
          case South =>
          case East =>
        }
      }
    }
    assert CellPoses(g) == PosesUpTo(g);
    PosesUpToSpec(g, q);
  }

  lemma FreshPoseShrinks(all: set<Pose>, history: set<Pose>, p: Pose)
    requires p in all && p !in history
    ensures |all - (history + {p})| == |all - history| - 1
  {
    assert all - history == (all - (history + {p})) + {p};
  }

  // -------------------------------------------------------------- the run

  /** How a run ends: at the goal (reported with its position), or with no solution. */
  datatype Verdict = Exit(at: Point) | NoSolution

  /** A whole run: the poses recorded in the history, in order; the events
      reported before each step; the verdict; and the final pose. */
  datatype Run = Run(seen: seq<Pose>, trace: seq<Pose>, verdict: Verdict, last: Pose)

  /** `seen` is the sequence of transitions from `p`, `trace` what each one
      reports, and `last` where they end. */
  predicate Walk(g: Grid, p: Pose, seen: seq<Pose>, trace: seq<Pose>, last: Pose)
    requires Walled(g)
    decreases |seen|
  {
    if seen == [] then trace == [] && last == p
    else
      Leavable(g, p.position) && trace != [] && seen[0] == p && trace[0] == Event(g, p) &&
      Walk(g, Step(g, p), seen[1..], trace[1..], last)
  }

  /** The loop of process_players_trial, from pose `pose` with the poses in
      `history` already recorded. */
  function Trial(g: Grid, goal: Point, pose: Pose, history: set<Pose>): (r: Run)
    requires Walled(g) && Leavable(g, pose.position) && history <= CellPoses(g)
    ensures |r.trace| == |r.seen|
    ensures Leavable(g, r.last.position)
    ensures r.verdict == Exit(goal) || r.verdict == NoSolution
    ensures r.verdict == Exit(goal) <==> r.last.position == goal
    ensures r.verdict == NoSolution <==> r.last.position != goal && (r.last in history || r.last in r.seen)
    ensures pose.position == goal ==> r.seen == [] && r.verdict == Exit(goal)
    ensures pose.position != goal && pose in history ==> r.seen == [] && r.verdict == NoSolution
    decreases |CellPoses(g) - history|
  {
    if pose.position == goal then Run([], [], Exit(goal), pose)
    else if pose in history then Run([], [], NoSolution, pose)
    else
      CellPosesSpec(g, pose);
      FreshPoseShrinks(CellPoses(g), history, pose);
      var rest := Trial(g, goal, Step(g, pose), history + {pose});
      Run([pose] + rest.seen, [Event(g, pose)] + rest.trace, rest.verdict, rest.last)
  }

  /** Every reported event is a move between two cells that are not walls,
      and each event starts where the previous one ended. */
  lemma {:induction false} WalkIsWallSafe(g: Grid, p: Pose, seen: seq<Pose>, trace: seq<Pose>, last: Pose)
    requires Walled(g) && Walk(g, p, seen, trace, last)
    ensures |trace| == |seen|
    ensures forall i :: 0 <= i < |trace| ==>
      Standable(g, trace[i].position) && Standable(g, Neighbour(trace[i].position, trace[i].orientation))
    ensures forall i :: 0 < i < |trace| ==> trace[i].position == Neighbour(trace[i - 1].position, trace[i - 1].orientation)
    ensures trace != [] ==> trace[0].position == p.position
    ensures trace != [] ==> last.position == Neighbour(trace[|trace| - 1].position, trace[|trace| - 1].orientation)
    decreases |seen|
  {
    if seen != [] {
      var next := Step(g, p);
      WalkIsWallSafe(g, next, seen[1..], trace[1..], last);
      assert trace == [trace[0]] + trace[1..];
    }
  }

  /** A run that neither starts on the goal nor repeats a pose records the
      pose, reports one event and goes on from the next pose. */
  lemma TrialContinues(g: Grid, goal: Point, pose: Pose, history: set<Pose>)
    requires Walled(g) && Leavable(g, pose.position) && history <= CellPoses(g)
    requires pose.position != goal && pose !in history
    ensures history + {pose} <= CellPoses(g)
    ensures var rest := Trial(g, goal, Step(g, pose), history + {pose});
      Trial(g, goal, pose, history) == Run([pose] + rest.seen, [Event(g, pose)] + rest.trace, rest.verdict, rest.last)
  {
    CellPosesSpec(g, pose);
  }

  /** The run is the walk the transition function takes from its first pose:
      each recorded pose is where the previous transition ended, and each
      event is what the player reports there. */
  lemma {:induction false} TrialWalks(g: Grid, goal: Point, pose: Pose, history: set<Pose>)
    requires Walled(g) && Leavable(g, pose.position) && history <= CellPoses(g)
    ensures var r := Trial(g, goal, pose, history);
      Walk(g, pose, r.seen, r.trace, r.last)
    decreases |CellPoses(g) - history|
  {
    if pose.position != goal && pose !in history {
      TrialContinues(g, goal, pose, history);
      CellPosesSpec(g, pose);
      FreshPoseShrinks(CellPoses(g), history, pose);
      TrialWalks(g, goal, Step(g, pose), history + {pose});
      var rest := Trial(g, goal, Step(g, pose), history + {pose});
      var r := Trial(g, goal, pose, history);
      assert r.seen[1..] == rest.seen && r.trace[1..] == rest.trace;
    }
  }

  /** Recording a fresh pose off the goal in front of poses that are fresh
      for the history grown by it keeps them all fresh and distinct. */
  lemma PrependFresh(pose: Pose, rest: seq<Pose>, history: set<Pose>, goal: Point)
    requires pose !in history && pose.position != goal
    requires forall i :: 0 <= i < |rest| ==> rest[i] !in history + {pose} && rest[i].position != goal
    requires forall i, j :: 0 <= i < j < |rest| ==> rest[i] != rest[j]
    ensures var seen := [pose] + rest;
      (forall i :: 0 <= i < |seen| ==> seen[i] !in history && seen[i].position != goal) &&
      (forall i, j :: 0 <= i < j < |seen| ==> seen[i] != seen[j])
  {
    var seen := [pose] + rest;
    forall i | 0 < i < |seen|
      ensures seen[i] == rest[i - 1] && seen[i] != pose
    {
    }
  }

  /** The history check works: a run records only poses not yet in its
      history and away from the goal, never the same pose twice, and so at
      most one per pose left to visit. */
  lemma {:induction false} TrialRecordsFreshPoses(g: Grid, goal: Point, pose: Pose, history: set<Pose>)
    requires Walled(g) && Leavable(g, pose.position) && history <= CellPoses(g)
    ensures var r := Trial(g, goal, pose, history);
      (forall i :: 0 <= i < |r.seen| ==> r.seen[i] !in history && r.seen[i].position != goal) &&
      (forall i, j :: 0 <= i < j < |r.seen| ==> r.seen[i] != r.seen[j]) &&
      |r.seen| <= |CellPoses(g) - history|
    decreases |CellPoses(g) - history|
  {
    if pose.position != goal && pose !in history {
      TrialContinues(g, goal, pose, history);
      CellPosesSpec(g, pose);
      FreshPoseShrinks(CellPoses(g), history, pose);
      var next := Step(g, pose);
      TrialRecordsFreshPoses(g, goal, next, history + {pose});
      var rest := Trial(g, goal, next, history + {pose});
      var r := Trial(g, goal, pose, history);
      assert r.seen == [pose] + rest.seen;
      PrependFresh(pose, rest.seen, history, goal);
    }
  }

  /** A goal with no open cell beside it is never reached, since every run
      ends on a cell it could leave: the verdict is that there is no
      solution. */
  lemma ShutInGoal(g: Grid, goal: Point, pose: Pose, history: set<Pose>)
    requires Walled(g) && Leavable(g, pose.position) && history <= CellPoses(g)
    requires !Leavable(g, goal)
    ensures Trial(g, goal, pose, history).verdict == NoSolution
  {
  }

  /** A run takes at most four transitions per cell of the grid. */
  lemma TrialBound(g: Grid, goal: Point, pose: Pose)
    requires Walled(g) && Leavable(g, pose.position)
    ensures |Trial(g, goal, pose, {}).trace| <= 4 * CellCount(g)
  {
    CellPosesSpec(g, pose);
    TrialRecordsFreshPoses(g, goal, pose, {});
  }

  function Extend(seen: seq<Pose>, trace: seq<Pose>, r: Run): Run
  {
    Run(seen + r.seen, trace + r.trace, r.verdict, r.last)
  }

  /** A run that starts on the goal or on a pose already recorded stops at
      once, at the goal or with no solution. */
  lemma TrialStops(g: Grid, goal: Point, pose: Pose, history: set<Pose>)
    requires Walled(g) && Leavable(g, pose.position) && history <= CellPoses(g)
    requires pose.position == goal || pose in history
    ensures Trial(g, goal, pose, history) ==
            Run([], [], if pose.position == goal then Exit(pose.position) else NoSolution, pose)
  {
  }

  /** A run that stops at once adds nothing to the part already done. */
  lemma ExtendStopped(seen: seq<Pose>, trace: seq<Pose>, verdict: Verdict, last: Pose)
    ensures Extend(seen, trace, Run([], [], verdict, last)) == Run(seen, trace, verdict, last)
  {
    assert seen + [] == seen && trace + [] == trace;
  }

  /** Moving the first pose and event of a run to the part already done
      leaves the whole unchanged. */
  lemma ExtendPrepended(seen: seq<Pose>, trace: seq<Pose>, pose: Pose, event: Pose, rest: Run)
    ensures Extend(seen, trace, Run([pose] + rest.seen, [event] + rest.trace, rest.verdict, rest.last)) ==
            Extend(seen + [pose], trace + [event], rest)
  {
    assert seen + ([pose] + rest.seen) == (seen + [pose]) + rest.seen;
    assert trace + ([event] + rest.trace) == (trace + [event]) + rest.trace;
  }

  /** One turn of the loop moves a transition from the rest of the run to
      the part already done. */
  lemma ExtendStep(g: Grid, goal: Point, seen: seq<Pose>, trace: seq<Pose>, pose: Pose, history: set<Pose>)
    requires Walled(g) && Leavable(g, pose.position) && history <= CellPoses(g)
    requires pose.position != goal && pose !in history
    ensures history + {pose} <= CellPoses(g)
    ensures |CellPoses(g) - (history + {pose})| < |CellPoses(g) - history|
    ensures Extend(seen, trace, Trial(g, goal, pose, history)) ==
            Extend(seen + [pose], trace + [Event(g, pose)], Trial(g, goal, Step(g, pose), history + {pose}))
  {
    CellPosesSpec(g, pose);
    FreshPoseShrinks(CellPoses(g), history, pose);
    TrialContinues(g, goal, pose, history);
    ExtendPrepended(seen, trace, pose, Event(g, pose), Trial(g, goal, Step(g, pose), history + {pose}));
  }

  class MazeManager {
    const maze: Maze
    const player: Player

    constructor (maze: Maze, player: Player)
      ensures this.maze == maze && this.player == player
    {
      this.maze := maze;
      this.player := player;
    }

    /** MazeManager.is_player_located_at_goal: the player stands on the
        goal cell of its maze, whatever way it faces. */
    predicate IsPlayerLocatedAtGoal()
      reads player
      ensures IsPlayerLocatedAtGoal() <==> player.ToPose().position == maze.goal
    {
      player.IsLocatedAt(maze.goal)
    }

    /** The body of the loop of process_players_trial: the first open turn
        among right, straight and left, or else the about-face, then one
        step. Returns what player_step_forward reports. */
    method MovePlayer() returns (event: Pose)
      requires Walled(maze.floor) && Leavable(maze.floor, player.position)
      modifies player
      ensures event == Event(maze.floor, old(player.ToPose()))
      ensures player.ToPose() == Step(maze.floor, old(player.ToPose()))
    {
      var g := maze.floor;
      var pose := player.ToPose();
      if CanGoToward(g, pose, TurnRight(pose.orientation)) {
        player.TurnToTheRight();
      } else if CanGoToward(g, pose, pose.orientation) {
        player.KeepOrientation();
      } else if CanGoToward(g, pose, TurnLeft(pose.orientation)) {
        player.TurnToTheLeft();
      } else {
        player.TurnAround();
      }
      event := player.ToPose();
      player.StepForward();
    }

    /** MazeManager.process_players_trial: runs the wall-follower, moving the
        player, and returns the reported events and the verdict. */
    method ProcessPlayersTrial() returns (trace: seq<Pose>, verdict: Verdict)
      requires Walled(maze.floor) && Leavable(maze.floor, player.position)
      modifies player
      ensures var r := Trial(maze.floor, maze.goal, old(player.ToPose()), {});
        trace == r.trace && verdict == r.verdict && player.ToPose() == r.last
    {
      var g := maze.floor;
      ghost var run := Trial(g, maze.goal, player.ToPose(), {});
      var history: set<Pose> := {};
      ghost var seen: seq<Pose> := [];
      trace := [];
      assert run.seen == seen + run.seen && run.trace == trace + run.trace;
      while !IsPlayerLocatedAtGoal() && player.ToPose() !in history
        invariant Leavable(g, player.position) && history <= CellPoses(g)
        invariant run == Extend(seen, trace, Trial(g, maze.goal, player.ToPose(), history))
        decreases |CellPoses(g) - history|
      {
        var pose := player.ToPose();
        ExtendStep(g, maze.goal, seen, trace, pose, history);
        history := history + {pose};
        seen := seen + [pose];
        var event := MovePlayer();
        trace := trace + [event];
      }
      verdict := if IsPlayerLocatedAtGoal() then Exit(player.position) else NoSolution;
      TrialStops(g, maze.goal, player.ToPose(), history);
      ExtendStopped(seen, trace, verdict, player.ToPose());
    }
  }
}
