/** The third demonstration maze of the original program, in which the
    player first walks away from the goal. */
module Scenarios {
  import opened Geometry
  import opened Floors
  import opened MazeText
  import opened Agent
  import opened Navigation

  /** The grid read from the lines
   *
   *   *****
   *   ** **
   *   *   *
   *   **o**
   *   **x**
   *   *****
   */
  predicate IsDetour(g: Grid)
  {
    |g| == 6 &&
    g[0] == [Wall, Wall, Wall, Wall, Wall] &&
    g[1] == [Wall, Wall, Normal, Wall, Wall] &&
    g[2] == [Wall, Normal, Normal, Normal, Wall] &&
    g[3] == [Wall, Wall, Start, Wall, Wall] &&
    g[4] == [Wall, Wall, Goal, Wall, Wall] &&
    g[5] == [Wall, Wall, Wall, Wall, Wall]
  }

  /** The cells of the detour maze that are not walls. */
  lemma DetourFloor(g: Grid, p: Point)
    requires IsDetour(g) && Standable(g, p)
    ensures p in {Point(1, 2), Point(2, 1), Point(2, 2), Point(2, 3), Point(3, 2), Point(4, 2)}
  {
    if p.x == 0 {
    } else if p.x == 1 {
    } else if p.x == 2 {
    } else if p.x == 3 {
    } else if p.x == 4 {
    }
  }

  /** Every open cell of the detour maze can be left again. */
  lemma DetourCellSurrounded(g: Grid, p: Point)
    requires IsDetour(g)
    requires p in {Point(1, 2), Point(2, 1), Point(2, 2), Point(2, 3), Point(3, 2), Point(4, 2)}
    ensures Leavable(g, p)
  {
    if p == Point(1, 2) {
    } else if p == Point(2, 1) {
    } else if p == Point(2, 2) {
    } else if p == Point(2, 3) {
    } else if p == Point(3, 2) {
    }
  }

  /** The detour maze is walled in. */
  lemma DetourWalled(g: Grid)
    requires IsDetour(g)
    ensures Walled(g)
  {
    forall p | Standable(g, p)
      ensures NeighboursInBounds(g, p)
    {
      DetourFloor(g, p);
      DetourCellSurrounded(g, p);
    }
  }

  /** Transition 0 of the run from the start cell facing North. Straight up, away from the goal behind it: to its right is a wall. */
  lemma DetourMove0(g: Grid)
    requires IsDetour(g)
    ensures Walled(g) && Leavable(g, Point(3, 2))
    ensures Step(g, Pose(Point(3, 2), North)) == Pose(Point(2, 2), North)
    ensures Event(g, Pose(Point(3, 2), North)) == Pose(Point(3, 2), North)
  {
    DetourWalled(g);
    DetourCellSurrounded(g, Point(3, 2));
    TakesStraight(g, Pose(Point(3, 2), North));
  }

  /** Transition 1 of the run from the start cell facing North. Right, into the East dead end. */
  lemma DetourMove1(g: Grid)
    requires IsDetour(g)
    ensures Walled(g) && Leavable(g, Point(2, 2))
    ensures Step(g, Pose(Point(2, 2), North)) == Pose(Point(2, 3), East)
    ensures Event(g, Pose(Point(2, 2), North)) == Pose(Point(2, 2), East)
  {
    DetourWalled(g);
    DetourCellSurrounded(g, Point(2, 2));
    TakesRight(g, Pose(Point(2, 2), North));
  }

  /** Transition 2 of the run from the start cell facing North. About-face in the East dead end: right, ahead and left are walls. */
  lemma DetourMove2(g: Grid)
    requires IsDetour(g)
    ensures Walled(g) && Leavable(g, Point(2, 3))
    ensures Step(g, Pose(Point(2, 3), East)) == Pose(Point(2, 2), West)
    ensures Event(g, Pose(Point(2, 3), East)) == Pose(Point(2, 3), West)
  {
    DetourWalled(g);
    DetourCellSurrounded(g, Point(2, 3));
    TakesBack(g, Pose(Point(2, 3), East));
  }

  /** Transition 3 of the run from the start cell facing North. Right, into the North dead end. */
  lemma DetourMove3(g: Grid)
    requires IsDetour(g)
    ensures Walled(g) && Leavable(g, Point(2, 2))
    ensures Step(g, Pose(Point(2, 2), West)) == Pose(Point(1, 2), North)
    ensures Event(g, Pose(Point(2, 2), West)) == Pose(Point(2, 2), North)
  {
    DetourWalled(g);
    DetourCellSurrounded(g, Point(2, 2));
    TakesRight(g, Pose(Point(2, 2), West));
  }

  /** Transition 4 of the run from the start cell facing North. About-face in the North dead end. */
  lemma DetourMove4(g: Grid)
    requires IsDetour(g)
    ensures Walled(g) && Leavable(g, Point(1, 2))
    ensures Step(g, Pose(Point(1, 2), North)) == Pose(Point(2, 2), South)
    ensures Event(g, Pose(Point(1, 2), North)) == Pose(Point(1, 2), South)
  {
    DetourWalled(g);
    DetourCellSurrounded(g, Point(1, 2));
    TakesBack(g, Pose(Point(1, 2), North));
  }

  /** Transition 5 of the run from the start cell facing North. Right, into the West dead end. */
  lemma DetourMove5(g: Grid)
    requires IsDetour(g)
    ensures Walled(g) && Leavable(g, Point(2, 2))
    ensures Step(g, Pose(Point(2, 2), South)) == Pose(Point(2, 1), West)
    ensures Event(g, Pose(Point(2, 2), South)) == Pose(Point(2, 2), West)
  {
    DetourWalled(g);
    DetourCellSurrounded(g, Point(2, 2));
    TakesRight(g, Pose(Point(2, 2), South));
  }

  /** Transition 6 of the run from the start cell facing North. About-face in the West dead end. */
  lemma DetourMove6(g: Grid)
    requires IsDetour(g)
    ensures Walled(g) && Leavable(g, Point(2, 1))
    ensures Step(g, Pose(Point(2, 1), West)) == Pose(Point(2, 2), East)
    ensures Event(g, Pose(Point(2, 1), West)) == Pose(Point(2, 1), East)
  {
    DetourWalled(g);
    DetourCellSurrounded(g, Point(2, 1));
    TakesBack(g, Pose(Point(2, 1), West));
  }

  /** Transition 7 of the run from the start cell facing North. Right, back down to the start cell. */
  lemma DetourMove7(g: Grid)
    requires IsDetour(g)
    ensures Walled(g) && Leavable(g, Point(2, 2))
    ensures Step(g, Pose(Point(2, 2), East)) == Pose(Point(3, 2), South)
    ensures Event(g, Pose(Point(2, 2), East)) == Pose(Point(2, 2), South)
  {
    DetourWalled(g);
    DetourCellSurrounded(g, Point(2, 2));
    TakesRight(g, Pose(Point(2, 2), East));
  }

  /** Transition 8 of the run from the start cell facing North. Straight onto the goal. */
  lemma DetourMove8(g: Grid)
    requires IsDetour(g)
    ensures Walled(g) && Leavable(g, Point(3, 2))
    ensures Step(g, Pose(Point(3, 2), South)) == Pose(Point(4, 2), South)
    ensures Event(g, Pose(Point(3, 2), South)) == Pose(Point(3, 2), South)
  {
    DetourWalled(g);
    DetourCellSurrounded(g, Point(3, 2));
    TakesStraight(g, Pose(Point(3, 2), South));
  }

  /** The grid read from the lines of the second demonstration maze, whose
      goal is shut in by walls on all four sides:
   *
   *   *******
   *   *     *
   *   * *** *
   *   *o*x* *
   *   * *** *
   *   *     *
   *   *******
   */
  predicate IsSpiral(g: Grid)
  {
    |g| == 7 &&
    g[0] == [Wall, Wall, Wall, Wall, Wall, Wall, Wall] &&
    g[1] == [Wall, Normal, Normal, Normal, Normal, Normal, Wall] &&
    g[2] == [Wall, Normal, Wall, Wall, Wall, Normal, Wall] &&
    g[3] == [Wall, Start, Wall, Goal, Wall, Normal, Wall] &&
    g[4] == [Wall, Normal, Wall, Wall, Wall, Normal, Wall] &&
    g[5] == [Wall, Normal, Normal, Normal, Normal, Normal, Wall] &&
    g[6] == [Wall, Wall, Wall, Wall, Wall, Wall, Wall]
  }

  /** The second maze is walled and its start cell can be left, so the
      wall-follower applies to it, although its goal cannot be reached:
      no open cell lies next to the goal. */
  lemma SpiralWalled(g: Grid)
    requires IsSpiral(g)
    ensures Walled(g) && Leavable(g, Point(3, 1))
    ensures Standable(g, Point(3, 3)) && !Surrounded(g, Point(3, 3))
  {
    forall p | Standable(g, p)
      ensures NeighboursInBounds(g, p)
    {
      assert 0 < p.x < 6;
      assert 0 < p.y < 6;
    }
  }

  /** The run on the second maze, from the start facing North, reports that
      there is no solution. */
  lemma SpiralHasNoSolution(g: Grid)
    requires IsSpiral(g)
    ensures Walled(g) && Leavable(g, Point(3, 1))
    ensures Trial(g, Point(3, 3), Pose(Point(3, 1), North), {}).verdict == NoSolution
  {
    SpiralWalled(g);
    ShutInGoal(g, Point(3, 3), Pose(Point(3, 1), North), {});
  }
}
