/**
 * The arena dimensions and the constants derived from them by setGameDimensions.  The
 * source keeps these in static fields; here they are one immutable record passed to
 * every operation that reads them.
 */
module Arena {
  import opened Geometry

  /** Ball diameter as a fraction of the arena width (2.5%). */
  const BallWidthFraction: real := 0.025
  /** Enemy diameter as a fraction of the arena width (7.5%). */
  const EnemyWidthFraction: real := 0.075
  /** How far outside the arena, in enemy diameters, the off-screen spawn lines lie. */
  const OffScreenFactor: real := 1.414

  datatype Dimensions = Dimensions(
    width: real, height: real,
    centerX: real, centerY: real,
    ballStartX: real, ballStartY: real,
    ballDiameter: int, enemyDiameter: int,
    offLeft: real, offTop: real, offRight: real, offBottom: real)

  /**
   * setGameDimensions: the centre, the ball start (also the centre), the ball and enemy
   * diameters truncated to whole units, and the four off-screen lines one enemy
   * diagonal (1.414 diameters) outside the arena.
   */
  function SetGameDimensions(width: real, height: real): (d: Dimensions)
    ensures d.width == width && d.height == height
    ensures d.centerX + d.centerX == width && d.centerY + d.centerY == height
    ensures d.ballStartX == d.centerX && d.ballStartY == d.centerY
    ensures d.ballDiameter == Trunc(width * BallWidthFraction)
    ensures d.enemyDiameter == Trunc(width * EnemyWidthFraction)
    ensures d.offLeft == d.offBottom == -(d.enemyDiameter as real) * OffScreenFactor
    ensures d.offRight - width == d.offTop - height == d.enemyDiameter as real * OffScreenFactor
  {
    var enemy := Trunc(width * EnemyWidthFraction);
    Dimensions(width, height, width / 2.0, height / 2.0, width / 2.0, height / 2.0,
               Trunc(width * BallWidthFraction), enemy,
               -(enemy as real) * OffScreenFactor, height + enemy as real * OffScreenFactor,
               width + enemy as real * OffScreenFactor, -(enemy as real) * OffScreenFactor)
  }

  /**
   * For a non-negative width the diameters are whole units no larger than their share of
   * the width, and the off-screen lines lie on or outside the arena edges, strictly once
   * the enemy diameter is at least one unit.
   */
  lemma DimensionsBounds(width: real, height: real)
    requires width >= 0.0
    ensures var d := SetGameDimensions(width, height);
            && 0 <= d.ballDiameter && d.ballDiameter as real <= width * BallWidthFraction < d.ballDiameter as real + 1.0
            && 0 <= d.enemyDiameter && d.enemyDiameter as real <= width * EnemyWidthFraction < d.enemyDiameter as real + 1.0
            && d.offLeft <= 0.0 && d.offBottom <= 0.0 && d.offRight >= width && d.offTop >= height
            && (d.enemyDiameter >= 1 ==> d.offLeft < 0.0 && d.offBottom < 0.0 && d.offRight > width && d.offTop > height)
  {
  }
}
