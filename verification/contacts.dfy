/**
 * The `Collision` record of levels/collisions.go that every narrow-phase
 * test returns.
 */
module Contacts {

  import opened Types

  /** Hit, the direction to push the objects apart, the penetration depth and an optional contact point. */
  datatype Collision = Collision(Hit: bool, Normal: Vector, Depth: real, Point: Vector)

  /** Go's zero value `Collision{}`: no hit, everything else zero. */
  const NoCollision: Collision := Collision(false, Vector(0.0, 0.0), 0.0, Vector(0.0, 0.0))
}
