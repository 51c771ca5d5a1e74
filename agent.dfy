/** The agent (class Player): a position and an orientation that the
    navigation updates in place, one turn or one step at a time. */
module Agent {
  import opened Geometry

  /** A snapshot of the agent, the unit of the navigation's history. */
  datatype Pose = Pose(position: Point, orientation: Orientation)

  class Player {
    var position: Point
    var orientation: Orientation

    constructor (position: Point, orientation: Orientation)
      ensures this.position == position && this.orientation == orientation
    {
      this.position := position;
      this.orientation := orientation;
    }

    /** Player.to_Pose: a snapshot of the player's state, equal for two
        players exactly when both fields agree. */
    function ToPose(): (pose: Pose)
      reads this
      ensures pose.position == position && pose.orientation == orientation
    {
      Pose(position, orientation)
    }

    /** Player.is_located_at: only the position counts, whatever way the
        player faces. */
    predicate IsLocatedAt(p: Point)
      reads this
      ensures IsLocatedAt(p) <==> ToPose().position == p
    {
      position == p
    }

    /** Player.turn_to_the_right: a quarter turn clockwise, on the spot. */
    method TurnToTheRight()
      modifies this
      ensures orientation == TurnRight(old(orientation))
      ensures position == old(position)
    {
      orientation := TurnRight(orientation);
    }

    /** Player.keep_orientation: deliberately does nothing. */
    method KeepOrientation()
      ensures ToPose() == old(ToPose())
    {
    }

    /** Player.turn_to_the_left: a quarter turn anticlockwise, on the spot. */
    method TurnToTheLeft()
      modifies this
      ensures orientation == TurnLeft(old(orientation))
      ensures position == old(position)
    {
      orientation := TurnLeft(orientation);
    }

    /** Player.turn_around: a half turn, on the spot. */
    method TurnAround()
      modifies this
      ensures orientation == Geometry.TurnAround(old(orientation))
      ensures position == old(position)
    {
      orientation := Geometry.TurnAround(orientation);
    }

    /** Player.step_forward: one cell along the current orientation, which
        does not change. */
    method StepForward()
      modifies this
      ensures position == Add(old(position), Unit(orientation))
      ensures orientation == old(orientation)
    {
      position := Add(position, Unit(orientation));
    }
  }
}
