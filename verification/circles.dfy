/**
 * The data of a circle of levels/circles.go: its centre, radius and
 * velocity.  Its colour, drawing and clock-driven Update are not modelled.
 */
module Circles {

  import opened Types

  /** A circle; Go embeds a Point, so X and Y are the centre. */
  datatype Circle = Circle(X: real, Y: real, Radius: real, Velocity: Vector)
  {
    function Center(): Point {
      Point(X, Y)
    }
  }
}
