/**
 * BallFactory.spawn: a ball leaves the ball start point (the arena centre) towards the
 * point the player touched, at a fixed speed.  The generator the class holds is never
 * drawn from, so a spawn depends only on the waypoint and the arena.
 */
module BallFactory {
  import opened Wrappers
  import opened Geometry
  import opened Bodies
  import opened Arena

  /** Speed of every ball, in arena units per second. */
  const BallSpeed: int := 2000
  /** Scale applied to the arena's default ball diameter. */
  const BallSizeMultiplier: real := 1.0

  /** The diameter a spawned ball gets: the default diameter times the multiplier, truncated. */
  function Diameter(d: Dimensions): int
  {
    Trunc(d.ballDiameter as real * BallSizeMultiplier)
  }

  /** With the multiplier at 1.0 the truncation gives back the default diameter. */
  lemma DiameterIsDefault(d: Dimensions)
    ensures Diameter(d) == d.ballDiameter
  {
    var v := d.ballDiameter as real * BallSizeMultiplier;
    assert v == d.ballDiameter as real;
    if v >= 0.0 {
      assert v.Floor == d.ballDiameter;
    } else {
      assert (-v).Floor == -d.ballDiameter;
    }
  }

  /**
   * spawn(waypointX, waypointY): scale, then aim at the waypoint, then speed, then move
   * to the start point.  `length` is the square root the direction is divided by.  A
   * waypoint on the start point leaves no direction to aim in.
   */
  function Spawn(d: Dimensions, wx: real, wy: real, length: real): (r: Option<Body>)
    requires IsRoot(length, wx - d.ballStartX, wy - d.ballStartY)
    ensures r.None? <==> wx == d.ballStartX && wy == d.ballStartY
    ensures r.Some? ==>
              && r.value.rect == Rect(d.ballStartX, d.ballStartY, Diameter(d) as real, Diameter(d) as real)
              && r.value.speed == BallSpeed
              && r.value.color == Fresh.color
              && r.value.collider == Fresh.collider
              && IsUnit(r.value.dir)
              && Signum(r.value.dir.x) == Signum(wx - d.ballStartX)
              && Signum(r.value.dir.y) == Signum(wy - d.ballStartY)
              && Mul(r.value.dir.x, wy - d.ballStartY) == Mul(r.value.dir.y, wx - d.ballStartX)
              && Mul(r.value.dir.x, wx - d.ballStartX) + Mul(r.value.dir.y, wy - d.ballStartY) > 0.0
  {
    var D := Diameter(d) as real;
    var sized := Resize(Fresh, D, D);
    match SetDirection(sized, wx - d.ballStartX, wy - d.ballStartY, length)
    case None => None
    case Some(aimed) =>
      match SetSpeed(aimed, BallSpeed)
      case Success(moving) => Some(MoveTo(moving, d.ballStartX, d.ballStartY))
      case Failure(_) => assert false; None
  }

  /**
   * Touching any point on the ray from the start through the waypoint launches the same
   * ball: only the direction to the waypoint matters, not its distance.
   */
  lemma SpawnAlongRay(d: Dimensions, wx: real, wy: real, length: real, k: real, kx: real, ky: real, klength: real)
    requires k > 0.0
    requires kx - d.ballStartX == k * (wx - d.ballStartX) && ky - d.ballStartY == k * (wy - d.ballStartY)
    requires IsRoot(length, wx - d.ballStartX, wy - d.ballStartY)
    requires IsRoot(klength, kx - d.ballStartX, ky - d.ballStartY)
    ensures Spawn(d, kx, ky, klength) == Spawn(d, wx, wy, length)
  {
    var D := Diameter(d) as real;
    SetDirectionScaleInvariant(Resize(Fresh, D, D), wx - d.ballStartX, wy - d.ballStartY, length,
                               k, kx - d.ballStartX, ky - d.ballStartY, klength);
  }
}
