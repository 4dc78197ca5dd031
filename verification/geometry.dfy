/**
 * Plain real-valued geometry shared by the collision engine and the moving bodies.
 * Arena coordinates grow towards the top-right corner, as in GL.
 */
module Geometry {
  import opened Wrappers

  /** A point or a direction in arena units. */
  datatype Vec = Vec(x: real, y: real)

  /**
   * The transform a BaseRect keeps in its model/view matrix: the centre (x, y) and the
   * scale (xs, ys).  The scale is the full width and height of the drawn square.
   */
  datatype Rect = Rect(x: real, y: real, xs: real, ys: real)

  /** The three values Math.signum can return for a non-NaN argument. */
  datatype Sign = Negative | Zero | Positive

  function Abs(v: real): (r: real)
    ensures r >= 0.0
    ensures r == v || r == -v
  {
    if v < 0.0 then -v else v
  }

  function Max(a: real, b: real): (r: real)
    ensures r >= a && r >= b
    ensures r == a || r == b
  {
    if a >= b then a else b
  }

  function Signum(v: real): (s: Sign)
    ensures s == Zero <==> v == 0.0
    ensures s == Positive <==> v > 0.0
  {
    if v > 0.0 then Positive else if v < 0.0 then Negative else Zero
  }

  /** The point reached after travelling `t` units along `dir` from `cur`. */
  function At(cur: Vec, dir: Vec, t: real): Vec
  {
    Vec(cur.x + dir.x * t, cur.y + dir.y * t)
  }

  /** BaseRect.setPosition: overwrites the centre, keeps the scale. */
  function SetPosition(r: Rect, x: real, y: real): (r': Rect)
    ensures r'.x == x && r'.y == y
    ensures r'.xs == r.xs && r'.ys == r.ys
  {
    r.(x := x, y := y)
  }

  /** BaseRect.setScale: overwrites the scale, keeps the centre. */
  function SetScale(r: Rect, xs: real, ys: real): (r': Rect)
    ensures r'.xs == xs && r'.ys == ys
    ensures r'.x == r.x && r'.y == r.y
  {
    r.(xs := xs, ys := ys)
  }

  /** Java's (int) cast of a float: truncation towards zero. */
  function Trunc(v: real): (n: int)
    ensures Abs(n as real) <= Abs(v) < Abs(n as real) + 1.0
    ensures v >= 0.0 ==> n >= 0
    ensures v <= 0.0 ==> n <= 0
  {
    if v >= 0.0 then v.Floor else -((-v).Floor)
  }

  // ---------------------------------------------------------------------------
  // Products of non-negative reals.  The solver handles these when the factors
  // are distinct variables, so squares are obtained by instantiating them.
  // ---------------------------------------------------------------------------

  lemma MulLeft(x: real, y: real, z: real)
    requires 0.0 <= x && y <= z
    ensures x * y <= x * z
  {
    assert x * z - x * y == x * (z - y);
  }

  lemma NegMul(x: real, y: real)
    ensures (-x) * y == -(x * y)
  {
  }

  lemma MulNonneg(x: real, y: real)
    requires 0.0 <= x && 0.0 <= y
    ensures 0.0 <= x * y
  {
  }

  lemma ProdLe(u: real, v: real, x: real, y: real)
    requires 0.0 <= u <= x && 0.0 <= v <= y
    ensures u * v <= x * y
  {
    MulLeft(u, v, y);
    MulLeft(y, u, x);
    assert u * y == y * u;
    assert x * y == y * x;
  }

  lemma ProdLt(u: real, v: real, x: real, y: real)
    requires 0.0 <= u < x && 0.0 <= v < y
    ensures u * v < x * y
  {
    MulLeft(u, v, y);
    assert y * x - y * u == y * (x - u);
    assert y * (x - u) > 0.0;
    assert u * y == y * u;
    assert x * y == y * x;
  }

  /** Squaring is monotone on the non-negative reals, in both directions. */
  lemma SquareMonotone(a: real, b: real)
    requires 0.0 <= a && 0.0 <= b
    ensures a <= b <==> a * a <= b * b
  {
    if a <= b {
      ProdLe(a, a, b, b);
    } else {
      ProdLt(b, b, a, a);
    }
  }

  // ---------------------------------------------------------------------------
  // Products written through `Mul`, so that a square such as Mul(m, m) stays one
  // term for the solver; the facts about it are proved on distinct factors.
  // ---------------------------------------------------------------------------

  function Mul(x: real, y: real): real
  {
    x * y
  }

  lemma MulPositive(x: real, y: real)
    requires x > 0.0 && y > 0.0
    ensures Mul(x, y) > 0.0
  {
  }

  lemma MulNegateBoth(x: real, y: real)
    ensures Mul(-x, -y) == Mul(x, y)
  {
  }

  lemma MulZeroLeft(x: real, y: real)
    requires x == 0.0
    ensures Mul(x, y) == 0.0
  {
  }

  lemma MulScaleBoth(k: real, a: real, b: real)
    ensures Mul(k * a, k * b) == Mul(k, k) * Mul(a, b)
  {
  }

  lemma MulLessBoth(u: real, v: real, x: real, y: real)
    requires 0.0 <= u < x && 0.0 <= v < y
    ensures Mul(u, v) < Mul(x, y)
  {
    ProdLt(u, v, x, y);
  }

  /** A square is positive away from zero and never negative. */
  lemma SquarePositive(x: real)
    requires x != 0.0
    ensures Mul(x, x) > 0.0
  {
    if x > 0.0 {
      MulPositive(x, x);
    } else {
      MulPositive(-x, -x);
      MulNegateBoth(x, x);
    }
  }

  lemma SquareNonNegative(x: real)
    ensures Mul(x, x) >= 0.0
  {
    if x == 0.0 {
      MulZeroLeft(x, x);
    } else {
      SquarePositive(x);
    }
  }

  /** Two non-negative reals with the same square are equal. */
  lemma SquareInjective(a: real, b: real)
    requires 0.0 <= a && 0.0 <= b && Mul(a, a) == Mul(b, b)
    ensures a == b
  {
    if a < b {
      MulLessBoth(a, a, b, b);
    } else if b < a {
      MulLessBoth(b, b, a, a);
    }
  }

  lemma DivProduct(a: real, b: real, m: real, n: real)
    requires m != 0.0 && n != 0.0
    ensures Mul(Mul(a / m, b / n), Mul(m, n)) == Mul(a, b)
  {
    assert (a / m) * m == a;
    assert (b / n) * n == b;
    assert ((a / m) * (b / n)) * (m * n) == ((a / m) * m) * ((b / n) * n);
  }

  lemma DivLeft(a: real, b: real, m: real)
    requires m != 0.0
    ensures Mul(a / m, b) == Mul(a, b) / m
  {
  }

  lemma CancelRight(m: real, n: real)
    requires n != 0.0
    ensures Mul(m, n) / n == m
  {
  }

  lemma SumCancel(x: real, y: real, z: real)
    requires z > 0.0 && Mul(x, z) + Mul(y, z) == z
    ensures x + y == 1.0
  {
    assert (x + y - 1.0) * z == 0.0;
  }

  // ---------------------------------------------------------------------------
  // Normalising a vector
  // ---------------------------------------------------------------------------

  /** `m` is what Math.sqrt returns for dx*dx + dy*dy: the non-negative root. */
  predicate IsRoot(m: real, dx: real, dy: real)
  {
    m >= 0.0 && Mul(m, m) == Mul(dx, dx) + Mul(dy, dy)
  }

  /** The length of a non-zero vector is positive. */
  lemma RootPositive(m: real, dx: real, dy: real)
    requires IsRoot(m, dx, dy) && (dx != 0.0 || dy != 0.0)
    ensures m > 0.0
  {
    SquareNonNegative(dx);
    SquareNonNegative(dy);
    if dx != 0.0 {
      SquarePositive(dx);
    } else {
      SquarePositive(dy);
    }
    if m == 0.0 {
      MulZeroLeft(m, m);
    }
  }

  predicate IsUnit(v: Vec)
  {
    Mul(v.x, v.x) + Mul(v.y, v.y) == 1.0
  }

  /**
   * (dx/m, dy/m): the normalised vector, absent for the zero vector, where the
   * division by a zero length has no real value.
   */
  function Normalize(dx: real, dy: real, m: real): (u: Option<Vec>)
    requires IsRoot(m, dx, dy)
    ensures u.None? <==> dx == 0.0 && dy == 0.0
  {
    if dx == 0.0 && dy == 0.0 then None
    else
      RootPositive(m, dx, dy);
      Some(Vec(dx / m, dy / m))
  }

  /**
   * The normalised vector has length one, keeps the sign of each component, is
   * parallel to the input, and points the same way (positive dot product).
   */
  lemma NormalizeMeaning(dx: real, dy: real, m: real)
    requires IsRoot(m, dx, dy) && (dx != 0.0 || dy != 0.0)
    ensures var u := Normalize(dx, dy, m).value;
            && IsUnit(u)
            && Signum(u.x) == Signum(dx) && Signum(u.y) == Signum(dy)
            && Mul(u.x, dy) == Mul(u.y, dx)
            && Mul(u.x, dx) + Mul(u.y, dy) > 0.0
  {
    RootPositive(m, dx, dy);
    MulPositive(m, m);
    DivProduct(dx, dx, m, m);
    DivProduct(dy, dy, m, m);
    SumCancel(Mul(dx / m, dx / m), Mul(dy / m, dy / m), Mul(m, m));
    DivLeft(dx, dy, m);
    DivLeft(dy, dx, m);
    assert Mul(dx, dy) == Mul(dy, dx);
    DivLeft(dx, dx, m);
    DivLeft(dy, dy, m);
    CancelRight(m, m);
    assert Mul(dx / m, dx) + Mul(dy / m, dy) == (Mul(dx, dx) + Mul(dy, dy)) / m;
  }

  lemma DivScale(k: real, a: real, m: real)
    requires k != 0.0 && m != 0.0
    ensures (k * a) / (k * m) == a / m
  {
  }

  lemma Distribute(c: real, a: real, b: real)
    ensures c * (a + b) == c * a + c * b
  {
  }

  /** k*m is the length of (k*dx, k*dy) when m is the length of (dx, dy). */
  lemma ScaledRoot(dx: real, dy: real, m: real, k: real)
    requires IsRoot(m, dx, dy) && k > 0.0
    ensures IsRoot(k * m, k * dx, k * dy)
  {
    MulScaleBoth(k, m, m);
    MulScaleBoth(k, dx, dx);
    MulScaleBoth(k, dy, dy);
    Distribute(Mul(k, k), Mul(dx, dx), Mul(dy, dy));
    MulNonneg(k, m);
  }

  /** Scaling the input by a positive factor does not change the normalised vector. */
  lemma NormalizeScaleInvariant(dx: real, dy: real, m: real, k: real, km: real)
    requires IsRoot(m, dx, dy) && k > 0.0
    requires IsRoot(km, k * dx, k * dy)
    ensures Normalize(k * dx, k * dy, km) == Normalize(dx, dy, m)
  {
    ScaledRoot(dx, dy, m, k);
    SquareInjective(km, k * m);
    if dx != 0.0 || dy != 0.0 {
      RootPositive(m, dx, dy);
      DivScale(k, dx, m);
      DivScale(k, dy, m);
    }
  }
}
