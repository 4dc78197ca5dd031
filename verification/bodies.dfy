/**
 * The moving bodies of the arena.  An Enemy and a Ball are both a BaseRect (centre and
 * scale) with a normalised motion vector, an integer speed in arena units per second, an
 * RGBA colour and the collision state of BaseRect.  Balls are referred to by identity
 * (`BallId`), because an enemy's list of possible collisions holds references to them.
 */
module Bodies {
  import opened Wrappers
  import opened Geometry
  import opened BaseRect

  /** The identity of a ball object. */
  type BallId = nat

  datatype Color = Color(r: real, g: real, b: real, a: real)

  datatype Body = Body(rect: Rect, dir: Vec, speed: int, color: Color, collider: Collider<BallId>)

  /**
   * A freshly constructed body: identity model/view matrix (centre at the origin, scale 1),
   * zero motion, zero speed, zero colour, no possible collisions and zeroed hit fields.
   */
  const Fresh: Body := Body(Rect(0.0, 0.0, 1.0, 1.0), Vec(0.0, 0.0), 0, Color(0.0, 0.0, 0.0, 0.0), Collider([], NoHit))

  /** The RuntimeException setSpeed throws for a speed that is not positive. */
  datatype SpeedError = NonPositiveSpeed(speed: int)

  /** setSpeed: a positive speed is stored, anything else is refused and stores nothing. */
  function SetSpeed(b: Body, s: int): (r: Result<Body, SpeedError>)
    ensures r.Failure? <==> s <= 0
    ensures r.Failure? ==> r.error == NonPositiveSpeed(s)
    ensures r.Success? ==> && r.value.speed == s
                           && r.value.rect == b.rect && r.value.dir == b.dir
                           && r.value.color == b.color && r.value.collider == b.collider
  {
    if s <= 0 then Failure(NonPositiveSpeed(s)) else Success(b.(speed := s))
  }

  /** getRadius: the scale is the diameter. */
  function Radius(b: Body): (r: real)
    ensures r + r == b.rect.xs
    ensures b.rect.xs >= 0.0 ==> 0.0 <= r <= b.rect.xs
  {
    b.rect.xs / 2.0
  }

  /** setColor: the given components with full opacity. */
  function SetColor(b: Body, r: real, g: real, bl: real): (b': Body)
    ensures b'.color == Color(r, g, bl, 1.0)
    ensures b'.rect == b.rect && b'.dir == b.dir && b'.speed == b.speed && b'.collider == b.collider
  {
    b.(color := Color(r, g, bl, 1.0))
  }

  /**
   * setDirection: store (dx, dy) divided by its length `m`.  The zero vector has no
   * direction (the source divides by a zero length there).
   */
  function SetDirection(b: Body, dx: real, dy: real, m: real): (r: Option<Body>)
    requires IsRoot(m, dx, dy)
    ensures r.None? <==> dx == 0.0 && dy == 0.0
    ensures r.Some? ==> && IsUnit(r.value.dir)
                        && Signum(r.value.dir.x) == Signum(dx) && Signum(r.value.dir.y) == Signum(dy)
                        && Mul(r.value.dir.x, dy) == Mul(r.value.dir.y, dx)
                        && Mul(r.value.dir.x, dx) + Mul(r.value.dir.y, dy) > 0.0
    ensures r.Some? ==> && r.value.rect == b.rect && r.value.speed == b.speed
                        && r.value.color == b.color && r.value.collider == b.collider
  {
    match Normalize(dx, dy, m)
    case None => None
    case Some(u) =>
      NormalizeMeaning(dx, dy, m);
      Some(b.(dir := u))
  }

  /** setDirection(kdx, kdy) with (kdx, kdy) = k*(dx, dy), k > 0, stores the same direction as setDirection(dx, dy). */
  lemma SetDirectionScaleInvariant(b: Body, dx: real, dy: real, m: real, k: real, kdx: real, kdy: real, km: real)
    requires IsRoot(m, dx, dy) && k > 0.0
    requires kdx == k * dx && kdy == k * dy
    requires IsRoot(km, kdx, kdy)
    ensures SetDirection(b, kdx, kdy, km) == SetDirection(b, dx, dy, m)
  {
    NormalizeScaleInvariant(dx, dy, m, k, km);
  }

  /** Position and scale setters reach the body's rectangle and nothing else. */
  function MoveTo(b: Body, x: real, y: real): (b': Body)
    ensures b'.rect == SetPosition(b.rect, x, y)
    ensures b'.dir == b.dir && b'.speed == b.speed && b'.color == b.color && b'.collider == b.collider
  {
    b.(rect := SetPosition(b.rect, x, y))
  }

  function Resize(b: Body, xs: real, ys: real): (b': Body)
    ensures b'.rect == SetScale(b.rect, xs, ys)
    ensures b'.dir == b.dir && b'.speed == b.speed && b'.color == b.color && b'.collider == b.collider
  {
    b.(rect := SetScale(b.rect, xs, ys))
  }

  /** The body's centre. */
  function Center(b: Body): Vec
  {
    Vec(b.rect.x, b.rect.y)
  }
}
