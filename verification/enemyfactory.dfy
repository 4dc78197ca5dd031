/**
 * EnemyFactory.spawn: an enemy enters from one of the four off-screen edges at a random
 * point, aimed at the arena centre, with a random speed.  Every draw of the random
 * generator is an explicit input constrained to the range nextInt promises.
 */
module EnemyFactory {
  import opened Wrappers
  import opened Geometry
  import opened BaseRect
  import opened Bodies
  import opened Arena

  const MinSpeed: int := 400
  const MaxSpeed: int := 600

  /**
   * The fixed off-screen coordinates the spawn uses for the edge it enters from.  They
   * come from a resources class that is not part of this model, so they are a parameter.
   */
  datatype SpawnLines = SpawnLines(left: real, top: real, right: real, bottom: real)

  /**
   * The values the generator returns during one spawn: nextInt(MaxSpeed - MinSpeed + 1)
   * for the speed, nextInt(4) for the edge, nextInt(n) for the coordinate along that
   * edge, and the square root taken when the direction is normalised.
   */
  datatype SpawnDraws = SpawnDraws(speed: int, region: int, coord: int, length: real)

  /** Why a spawn produces no enemy. */
  datatype SpawnError =
    | EmptyRange     // nextInt was asked for a value below a bound that is not positive
    | NoDirection    // the spawn point is the arena centre, so there is no direction to aim in

  /**
   * randInRange(min, max) = nextInt(max - min + 1) + min, with `draw` the value nextInt
   * returned.  nextInt refuses a bound that is not positive.
   */
  function RandInRange(min: int, max: int, draw: int): (r: Option<int>)
    requires 0 <= draw && (max - min + 1 > 0 ==> draw < max - min + 1)
    ensures r.None? <==> max < min
    ensures r.Some? ==> min <= r.value <= max
  {
    if max - min + 1 <= 0 then None else Some(draw + min)
  }

  /** Every value of a non-empty range is reached by exactly one draw. */
  lemma RandInRangeOnto(min: int, max: int, v: int)
    requires min <= v <= max
    ensures RandInRange(min, max, v - min) == Some(v)
    ensures forall draw | 0 <= draw < max - min + 1 && RandInRange(min, max, draw) == Some(v) :: draw == v - min
  {
  }

  /** MIN_RANGES and MAX_RANGES: index 0 spans the width, index 1 the height, both truncated. */
  function MinRange(d: Dimensions, axis: int): int
    requires 0 <= axis < 2
  {
    if axis == 0 then Trunc(d.offLeft) else Trunc(d.offBottom)
  }

  function MaxRange(d: Dimensions, axis: int): int
    requires 0 <= axis < 2
  {
    if axis == 0 then Trunc(d.offRight) else Trunc(d.offTop)
  }

  /** The bound passed to nextInt when drawing the coordinate for `region`. */
  function CoordBound(d: Dimensions, region: int): int
    requires 0 <= region < 4
  {
    MaxRange(d, region % 2) - MinRange(d, region % 2) + 1
  }

  /**
   * Where the enemy appears: regions 0 and 2 fix y at the top or bottom line and draw x
   * across the width; regions 1 and 3 fix x at the left or right line and draw y across
   * the height.
   */
  function SpawnPoint(d: Dimensions, lines: SpawnLines, region: int, coord: int): (p: Option<Vec>)
    requires 0 <= region < 4
    requires 0 <= coord && (CoordBound(d, region) > 0 ==> coord < CoordBound(d, region))
    ensures p.None? <==> CoordBound(d, region) <= 0
    ensures p.Some? && region == 0 ==>
              p.value.y == lines.top && Trunc(d.offLeft) as real <= p.value.x <= Trunc(d.offRight) as real
    ensures p.Some? && region == 1 ==>
              p.value.x == lines.left && Trunc(d.offBottom) as real <= p.value.y <= Trunc(d.offTop) as real
    ensures p.Some? && region == 2 ==>
              p.value.y == lines.bottom && Trunc(d.offLeft) as real <= p.value.x <= Trunc(d.offRight) as real
    ensures p.Some? && region == 3 ==>
              p.value.x == lines.right && Trunc(d.offBottom) as real <= p.value.y <= Trunc(d.offTop) as real
  {
    match RandInRange(MinRange(d, region % 2), MaxRange(d, region % 2), coord)
    case None => None
    case Some(v) =>
      if region == 0 then Some(Vec(v as real, lines.top))
      else if region == 1 then Some(Vec(lines.left, v as real))
      else if region == 2 then Some(Vec(v as real, lines.bottom))
      else Some(Vec(lines.right, v as real))
  }

  /** The draws are values nextInt and Math.sqrt can return in this spawn. */
  predicate ValidDraws(d: Dimensions, lines: SpawnLines, draws: SpawnDraws)
  {
    && 0 <= draws.speed < MaxSpeed - MinSpeed + 1
    && 0 <= draws.region < 4
    && 0 <= draws.coord && (CoordBound(d, draws.region) > 0 ==> draws.coord < CoordBound(d, draws.region))
    && (SpawnPoint(d, lines, draws.region, draws.coord).Some? ==>
          var p := SpawnPoint(d, lines, draws.region, draws.coord).value;
          IsRoot(draws.length, d.centerX - p.x, d.centerY - p.y))
  }

  /**
   * spawn: place a fresh enemy at the spawn point with a square scale of one enemy
   * diameter, colour magenta, aimed at the centre, at the drawn speed.
   */
  function Spawn(d: Dimensions, lines: SpawnLines, draws: SpawnDraws): (r: Result<Body, SpawnError>)
    requires ValidDraws(d, lines, draws)
    ensures r.Failure? <==>
              || SpawnPoint(d, lines, draws.region, draws.coord).None?
              || SpawnPoint(d, lines, draws.region, draws.coord).value == Vec(d.centerX, d.centerY)
    ensures r.Success? ==>
              var p := SpawnPoint(d, lines, draws.region, draws.coord).value;
              && r.value.speed == MinSpeed + draws.speed && MinSpeed <= r.value.speed <= MaxSpeed
              && r.value.rect == Rect(p.x, p.y, d.enemyDiameter as real, d.enemyDiameter as real)
              && r.value.color == Color(1.0, 0.0, 1.0, 1.0)
              && r.value.collider == Collider([], NoHit)
              && IsUnit(r.value.dir)
              && Mul(r.value.dir.x, d.centerY - p.y) == Mul(r.value.dir.y, d.centerX - p.x)
              && Mul(r.value.dir.x, d.centerX - p.x) + Mul(r.value.dir.y, d.centerY - p.y) > 0.0
  {
    var speed := RandInRange(MinSpeed, MaxSpeed, draws.speed).value;
    match SpawnPoint(d, lines, draws.region, draws.coord)
    case None => Failure(EmptyRange)
    case Some(p) =>
      var placed := Resize(MoveTo(Fresh, p.x, p.y), d.enemyDiameter as real, d.enemyDiameter as real);
      var colored := SetColor(placed, 1.0, 0.0, 1.0);
      match SetDirection(colored, d.centerX - p.x, d.centerY - p.y, draws.length)
      case None => Failure(NoDirection)
      case Some(aimed) =>
        match SetSpeed(aimed, speed)
        case Success(enemy) => Success(enemy)
        case Failure(_) => assert false; Failure(EmptyRange)
  }

  /** The arena from setGameDimensions always gives nextInt a positive bound. */
  lemma RangesNonEmpty(width: real, height: real, region: int)
    requires width >= 0.0 && height >= 0.0 && 0 <= region < 4
    ensures CoordBound(SetGameDimensions(width, height), region) > 0
  {
    var d := SetGameDimensions(width, height);
    DimensionsBounds(width, height);
    assert Trunc(d.offLeft) <= 0 && Trunc(d.offBottom) <= 0;
    assert Trunc(d.offRight) >= 0 && Trunc(d.offTop) >= 0;
  }

  /**
   * With the arena from setGameDimensions and spawn lines on the far side of the centre
   * on every edge, a spawn always produces an enemy.
   */
  lemma SpawnSucceeds(width: real, height: real, lines: SpawnLines, draws: SpawnDraws)
    requires width >= 0.0 && height >= 0.0
    requires var d := SetGameDimensions(width, height);
             && lines.left < d.centerX && lines.right > d.centerX
             && lines.bottom < d.centerY && lines.top > d.centerY
    requires ValidDraws(SetGameDimensions(width, height), lines, draws)
    ensures Spawn(SetGameDimensions(width, height), lines, draws).Success?
  {
    var d := SetGameDimensions(width, height);
    RangesNonEmpty(width, height, draws.region);
    var p := SpawnPoint(d, lines, draws.region, draws.coord);
    assert p.Some?;
    assert p.value != Vec(d.centerX, d.centerY);
  }
}
