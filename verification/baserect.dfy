/**
 * The collision engine of BaseRect: the coarse box-overlap test, the sub-stepped
 * circle-versus-rectangle sweep with its face classification and push-back, and the
 * per-object state the sweep reads and writes (the candidate list and the hit fields).
 *
 * The source returns the struck rectangle and leaves the details in mutable fields;
 * here the sweep returns a value and the object state is an immutable `Collider`.
 */
module BaseRect {
  import opened Wrappers
  import opened Geometry

  /** Largest distance the sweep advances between two probes. */
  const MaxStep: real := 2.0
  /** A leftover distance below this is not probed at all. */
  const MinStep: real := 0.001

  /** The GameState.HIT_FACE_* codes 0, 1, 2 and 3. */
  datatype Face = NoFace | Vertical | Horizontal | SharpCorner

  // ---------------------------------------------------------------------------
  // Coarse test
  // ---------------------------------------------------------------------------

  /** An axis-aligned box given by its edges. */
  datatype Box = Box(left: real, right: real, bottom: real, top: real)

  /** The open intervals (a1, b1) and (a2, b2) are both non-empty and share a point. */
  predicate OpenOverlap(a1: real, b1: real, a2: real, b2: real)
  {
    a1 < b2 && a2 < b1 && a1 < b1 && a2 < b2
  }

  /** `p` lies strictly inside box `b`. */
  predicate StrictlyInside(p: Vec, b: Box)
  {
    b.left < p.x < b.right && b.bottom < p.y < b.top
  }

  /**
   * The box the coarse test builds around a target: the FULL scale is used as the
   * half-extent, twice the size the fine test uses.
   */
  function CoarseBox(target: Rect): Box
  {
    Box(target.x - target.xs, target.x + target.xs, target.y - target.ys, target.y + target.ys)
  }

  /**
   * checkCoarseCollision: clip the query box against the target box and report
   * whether what is left has positive width and positive height.
   */
  function CheckCoarseCollision(target: Rect, left: real, right: real, bottom: real, top: real): (hit: bool)
    ensures hit <==> (OpenOverlap(target.x - target.xs, target.x + target.xs, left, right)
                      && OpenOverlap(target.y - target.ys, target.y + target.ys, bottom, top))
  {
    var targLeft := target.x - target.xs;
    var targRight := target.x + target.xs;
    var targBottom := target.y - target.ys;
    var targTop := target.y + target.ys;
    var checkLeft := if targLeft > left then targLeft else left;
    var checkRight := if targRight < right then targRight else right;
    var checkTop := if targBottom > bottom then targBottom else bottom;
    var checkBottom := if targTop < top then targTop else top;
    checkRight > checkLeft && checkBottom > checkTop
  }

  /** The coarse test passes exactly when some point lies strictly inside both boxes. */
  lemma CoarseMeansSharedInterior(target: Rect, q: Box)
    ensures CheckCoarseCollision(target, q.left, q.right, q.bottom, q.top)
        <==> exists p :: StrictlyInside(p, CoarseBox(target)) && StrictlyInside(p, q)
  {
    var t := CoarseBox(target);
    if CheckCoarseCollision(target, q.left, q.right, q.bottom, q.top) {
      var lo := Max(t.left, q.left);
      var hi := if t.right < q.right then t.right else q.right;
      var bo := Max(t.bottom, q.bottom);
      var tp := if t.top < q.top then t.top else q.top;
      var p := Vec((lo + hi) / 2.0, (bo + tp) / 2.0);
      assert StrictlyInside(p, t) && StrictlyInside(p, q);
    }
  }

  /**
   * The box moveEnemies hands to the coarse test: the span between the current and the
   * final centre, widened by the radius on every side.  Shrunk by the radius, it holds
   * both centres and each of its edges passes through one of them, so it is the smallest
   * such box.
   */
  function SweptBox(cur: Vec, fin: Vec, radius: real): (b: Box)
    ensures b.left + radius <= cur.x <= b.right - radius && b.left + radius <= fin.x <= b.right - radius
    ensures b.bottom + radius <= cur.y <= b.top - radius && b.bottom + radius <= fin.y <= b.top - radius
    ensures (b.left + radius == cur.x || b.left + radius == fin.x) && (b.right - radius == cur.x || b.right - radius == fin.x)
    ensures (b.bottom + radius == cur.y || b.bottom + radius == fin.y) && (b.top - radius == cur.y || b.top - radius == fin.y)
  {
    var lr := if cur.x < fin.x then (cur.x - radius, fin.x + radius) else (fin.x - radius, cur.x + radius);
    var bt := if cur.y < fin.y then (cur.y - radius, fin.y + radius) else (fin.y - radius, cur.y + radius);
    Box(lr.0, lr.1, bt.0, bt.1)
  }

  /**
   * Every centre on the segment from `cur` to `fin` lies in the swept box shrunk by the
   * radius: a circle of that radius centred anywhere on the path stays inside the box.
   */
  lemma SweptBoxHoldsPath(cur: Vec, fin: Vec, radius: real, t: real)
    requires 0.0 <= t <= 1.0
    ensures var b := SweptBox(cur, fin, radius);
            && b.left + radius <= cur.x + Mul(t, fin.x - cur.x) <= b.right - radius
            && b.bottom + radius <= cur.y + Mul(t, fin.y - cur.y) <= b.top - radius
  {
    BetweenEnds(cur.x, fin.x - cur.x, t, 1.0);
    BetweenEnds(cur.y, fin.y - cur.y, t, 1.0);
  }

  // ---------------------------------------------------------------------------
  // One probe: circle against one rectangle
  // ---------------------------------------------------------------------------

  /** Distance of the circle centre from the rectangle centre, folded into the first quadrant. */
  function Folded(circle: Vec, rect: Rect): Vec
  {
    Vec(Abs(circle.x - rect.x), Abs(circle.y - rect.y))
  }

  /** Half of the scale: the half-extent the fine test uses. */
  function Half(rect: Rect): Vec
  {
    Vec(rect.xs / 2.0, rect.ys / 2.0)
  }

  /**
   * Reference definition of contact: the closest point of the closed rectangle
   * (half-extents scale/2) lies within `radius` of the circle centre.
   */
  predicate Touches(circle: Vec, rect: Rect, radius: real)
  {
    var ex := Max(0.0, Folded(circle, rect).x - Half(rect).x);
    var ey := Max(0.0, Folded(circle, rect).y - Half(rect).y);
    ex * ex + ey * ey <= radius * radius
  }

  /** What a successful probe reports: the face hit, the axis pushed back along, and the push. */
  datatype Contact = Contact(face: Face, adjust: Face, xAdj: real, yAdj: real)

  /**
   * The corner rule: compare the signs of the direction with the signs of the vector from
   * the circle to the rectangle centre.
   */
  function CornerFace(dir: Vec, circle: Vec, rect: Rect): (f: Face)
    ensures f != NoFace
    ensures Signum(dir.x) == Signum(rect.x - circle.x) && Signum(dir.y) == Signum(rect.y - circle.y)
            ==> f == SharpCorner
    ensures Signum(dir.x) == Signum(rect.x - circle.x) && Signum(dir.y) != Signum(rect.y - circle.y)
            ==> f == Vertical
    ensures Signum(dir.x) != Signum(rect.x - circle.x) && Signum(dir.y) == Signum(rect.y - circle.y)
            ==> f == Horizontal
    ensures Signum(dir.x) != Signum(rect.x - circle.x) && Signum(dir.y) != Signum(rect.y - circle.y)
            ==> f == SharpCorner
  {
    var dirXSign := Signum(dir.x);
    var dirYSign := Signum(dir.y);
    var cornerXSign := Signum(rect.x - circle.x);
    var cornerYSign := Signum(rect.y - circle.y);
    if dirXSign == cornerXSign && dirYSign == cornerYSign then SharpCorner
    else if dirXSign == cornerXSign then Vertical
    else if dirYSign == cornerYSign then Horizontal
    else SharpCorner
  }

  /**
   * The axis-aligned push-back.  The last branch (neither axis) is the source's
   * "unexpected faceToAdjust" fallback; `Probe` never takes it.
   */
  function Correction(adjust: Face, circle: Vec, rect: Rect, radius: real): Vec
  {
    var f := Folded(circle, rect);
    var h := Half(rect);
    if adjust == Horizontal then
      var m := h.y + radius - f.y;
      Vec(0.0, if circle.y < rect.y then -m else m)
    else if adjust == Vertical then
      var m := h.x + radius - f.x;
      Vec(if circle.x < rect.x then -m else m, 0.0)
    else
      Vec(0.0, 0.0)
  }

  /** Probe with the correction filled in. */
  function MakeContact(face: Face, adjust: Face, circle: Vec, rect: Rect, radius: real): Contact
  {
    var adj := Correction(adjust, circle, rect, radius);
    Contact(face, adjust, adj.x, adj.y)
  }

  /**
   * The body of the candidate loop in findFirstCollision / collidedWith: test the circle
   * at `circle` against `rect`, and on contact classify it and compute the push-back.
   * The axis to adjust is always one of the two faces, so the zero fallback of
   * `Correction` never runs.
   */
  function Probe(circle: Vec, dir: Vec, rect: Rect, radius: real): (c: Option<Contact>)
    ensures c.Some? ==> c.value.adjust == Horizontal || c.value.adjust == Vertical
  {
    var f := Folded(circle, rect);
    var h := Half(rect);
    if f.x > h.x + radius || f.y > h.y + radius then
      None
    else if f.x <= h.x then
      Some(MakeContact(Horizontal, Horizontal, circle, rect, radius))
    else if f.y <= h.y then
      Some(MakeContact(Vertical, Vertical, circle, rect, radius))
    else
      var xdist := f.x - h.x;
      var ydist := f.y - h.y;
      if xdist * xdist + ydist * ydist > radius * radius then
        None
      else
        var faceToAdjust := if xdist < ydist then Horizontal else Vertical;
        Some(MakeContact(CornerFace(dir, circle, rect), faceToAdjust, circle, rect, radius))
  }

  /** The circle centre is in the corner region: outside the rectangle on both axes. */
  predicate InCorner(circle: Vec, rect: Rect)
  {
    Folded(circle, rect).x > Half(rect).x && Folded(circle, rect).y > Half(rect).y
  }

  /** Squared distance from the nearest rectangle corner, for a centre in the corner region. */
  function CornerDistSq(circle: Vec, rect: Rect): real
  {
    var dx := Folded(circle, rect).x - Half(rect).x;
    var dy := Folded(circle, rect).y - Half(rect).y;
    dx * dx + dy * dy
  }

  /**
   * Every reported contact lies within the rectangle grown by the radius on both axes,
   * and in the corner region the corner itself lies within the radius.
   */
  lemma ProbeBounds(circle: Vec, dir: Vec, rect: Rect, radius: real)
    requires Probe(circle, dir, rect, radius).Some?
    ensures Folded(circle, rect).x <= Half(rect).x + radius
    ensures Folded(circle, rect).y <= Half(rect).y + radius
    ensures InCorner(circle, rect) ==> CornerDistSq(circle, rect) <= radius * radius
  {
  }

  /**
   * Face classification: inside the half-width on X gives Horizontal, otherwise inside the
   * half-height on Y gives Vertical, otherwise the corner rule decides; in the corner
   * region the push-back axis is Horizontal exactly when the X gap is the smaller one.
   */
  lemma ProbeFaces(circle: Vec, dir: Vec, rect: Rect, radius: real)
    requires Probe(circle, dir, rect, radius).Some?
    ensures Folded(circle, rect).x <= Half(rect).x ==>
              Probe(circle, dir, rect, radius).value.face == Horizontal
              && Probe(circle, dir, rect, radius).value.adjust == Horizontal
    ensures Folded(circle, rect).x > Half(rect).x && Folded(circle, rect).y <= Half(rect).y ==>
              Probe(circle, dir, rect, radius).value.face == Vertical
              && Probe(circle, dir, rect, radius).value.adjust == Vertical
    ensures InCorner(circle, rect) ==>
              Probe(circle, dir, rect, radius).value.face == CornerFace(dir, circle, rect)
    ensures InCorner(circle, rect) ==>
              (Probe(circle, dir, rect, radius).value.adjust == Horizontal
               <==> Folded(circle, rect).x - Half(rect).x < Folded(circle, rect).y - Half(rect).y)
  {
  }

  /**
   * The push-back is axis-aligned, its magnitude is the overlap on that axis (never
   * negative, so the "was neg" checks cannot fire), it points away from the rectangle
   * centre, and after it the circle is exactly tangent on that axis.
   */
  lemma ProbePushBack(circle: Vec, dir: Vec, rect: Rect, radius: real)
    requires Probe(circle, dir, rect, radius).Some?
    ensures var c := Probe(circle, dir, rect, radius).value;
            c.adjust == Horizontal ==>
              && c.xAdj == 0.0
              && Abs(c.yAdj) == Half(rect).y + radius - Folded(circle, rect).y
              && (circle.y < rect.y ==> c.yAdj <= 0.0)
              && (circle.y >= rect.y ==> c.yAdj >= 0.0)
              && Abs(circle.y + c.yAdj - rect.y) == Half(rect).y + radius
    ensures var c := Probe(circle, dir, rect, radius).value;
            c.adjust == Vertical ==>
              && c.yAdj == 0.0
              && Abs(c.xAdj) == Half(rect).x + radius - Folded(circle, rect).x
              && (circle.x < rect.x ==> c.xAdj <= 0.0)
              && (circle.x >= rect.x ==> c.xAdj >= 0.0)
              && Abs(circle.x + c.xAdj - rect.x) == Half(rect).x + radius
  {
    ProbeBounds(circle, dir, rect, radius);
  }

  /** Contact test on the folded coordinates, as Probe performs it. */
  lemma FoldedContact(fx: real, fy: real, hx: real, hy: real, r: real)
    requires fx >= 0.0 && fy >= 0.0 && r >= 0.0
    ensures (!(fx > hx + r || fy > hy + r)
             && (fx <= hx || fy <= hy || (fx - hx) * (fx - hx) + (fy - hy) * (fy - hy) <= r * r))
        <==> Max(0.0, fx - hx) * Max(0.0, fx - hx) + Max(0.0, fy - hy) * Max(0.0, fy - hy) <= r * r
  {
    var ex := Max(0.0, fx - hx);
    var ey := Max(0.0, fy - hy);
    SquareMonotone(ex, r);
    SquareMonotone(ey, r);
    assert ex * ex >= 0.0 && ey * ey >= 0.0;
    if fx > hx + r {
      assert ex > r;
    } else if fy > hy + r {
      assert ey > r;
    } else if fx <= hx {
      assert ex == 0.0;
    } else if fy <= hy {
      assert ey == 0.0;
    } else {
      assert ex == fx - hx && ey == fy - hy;
    }
  }

  /** A probe reports contact exactly when the circle touches the closed rectangle. */
  lemma ProbeIffTouches(circle: Vec, dir: Vec, rect: Rect, radius: real)
    requires radius >= 0.0
    ensures Probe(circle, dir, rect, radius).Some? <==> Touches(circle, rect, radius)
  {
    var f := Folded(circle, rect);
    var h := Half(rect);
    FoldedContact(f.x, f.y, h.x, h.y, radius);
  }

  // ---------------------------------------------------------------------------
  // Candidates at one sub-step
  // ---------------------------------------------------------------------------

  /** The first candidate (in list order) a probe succeeds on, with its contact. */
  datatype Found = Found(index: nat, contact: Contact)

  function FirstContact(cands: seq<Rect>, p: Vec, dir: Vec, radius: real): (r: Option<Found>)
    ensures r.None? <==> forall j | 0 <= j < |cands| :: Probe(p, dir, cands[j], radius).None?
    ensures r.Some? ==> && r.value.index < |cands|
                        && Probe(p, dir, cands[r.value.index], radius) == Some(r.value.contact)
                        && forall j | 0 <= j < r.value.index :: Probe(p, dir, cands[j], radius).None?
  {
    if |cands| == 0 then None
    else match Probe(p, dir, cands[0], radius)
      case Some(c) => Some(Found(0, c))
      case None =>
        match FirstContact(cands[1..], p, dir, radius)
        case None => None
        case Some(f) => Some(Found(f.index + 1, f.contact))
  }

  // ---------------------------------------------------------------------------
  // The sub-step schedule
  // ---------------------------------------------------------------------------

  /** The last distance probed, or the starting distance when nothing is probed. */
  function LastOr(start: real, s: seq<real>): real
  {
    if |s| == 0 then start else s[|s| - 1]
  }

  /**
   * The successive values of `traveled` at which the sweep probes, starting after
   * `traveled`: whole MaxStep strides while more than MaxStep remains, then one jump to
   * `distance`, unless that last leftover is below MinStep.
   */
  function ScheduleFrom(traveled: real, distance: real): (s: seq<real>)
    ensures forall i | 0 <= i < |s| :: traveled < s[i] <= distance
    ensures forall i | 0 <= i < |s| - 1 :: s[i] == traveled + MaxStep * (i + 1) as real
    ensures |s| > 0 ==> s[|s| - 1] == distance || s[|s| - 1] == traveled + MaxStep * |s| as real
    ensures forall i, j | 0 <= i < j < |s| :: s[i] < s[j]
    ensures distance - LastOr(traveled, s) < MinStep
    ensures |s| == 0 <==> distance - traveled < MinStep
    decreases (distance - traveled).Floor
  {
    if !(traveled < distance) then []
    else if distance - traveled > MaxStep then
      [traveled + MaxStep] + ScheduleFrom(traveled + MaxStep, distance)
    else if distance - traveled < MinStep then []
    else [distance]
  }

  // ---------------------------------------------------------------------------
  // The sweep over all candidates (findFirstCollision)
  // ---------------------------------------------------------------------------

  /** The hit fields of BaseRect: face, distance travelled before impact, push-back. */
  datatype HitFields = HitFields(face: Face, traveled: real, xAdj: real, yAdj: real)

  /** A sweep result: which candidate was struck and the hit fields to record. */
  datatype Hit = Hit(index: nat, fields: HitFields)

  function ToHit(f: Found, t: real): Hit
  {
    Hit(f.index, HitFields(f.contact.face, t, f.contact.xAdj, f.contact.yAdj))
  }

  /** Probe every candidate at each scheduled distance in turn; the first success wins. */
  function SweepSteps(steps: seq<real>, cands: seq<Rect>, cur: Vec, dir: Vec, radius: real): (h: Option<Hit>)
    ensures h.Some? ==> h.value.fields.traveled in steps && h.value.index < |cands|
  {
    if |steps| == 0 then None
    else match FirstContact(cands, At(cur, dir, steps[0]), dir, radius)
      case Some(f) => Some(ToHit(f, steps[0]))
      case None => SweepSteps(steps[1..], cands, cur, dir, radius)
  }

  /**
   * Over an increasing schedule the sweep misses exactly when no scheduled position
   * touches any candidate, and a hit is the first candidate touched at the earliest
   * position that touches one.
   */
  lemma {:induction false} SweepStepsMeaning(steps: seq<real>, cands: seq<Rect>, cur: Vec, dir: Vec, radius: real)
    requires forall i, j | 0 <= i < j < |steps| :: steps[i] < steps[j]
    ensures var h := SweepSteps(steps, cands, cur, dir, radius);
            (h.None? <==> forall i | 0 <= i < |steps| :: FirstContact(cands, At(cur, dir, steps[i]), dir, radius).None?)
    ensures var h := SweepSteps(steps, cands, cur, dir, radius);
            (h.Some? ==>
               && FirstContact(cands, At(cur, dir, h.value.fields.traveled), dir, radius).Some?
               && h.value == ToHit(FirstContact(cands, At(cur, dir, h.value.fields.traveled), dir, radius).value,
                                   h.value.fields.traveled)
               && forall i | 0 <= i < |steps| && steps[i] < h.value.fields.traveled ::
                    FirstContact(cands, At(cur, dir, steps[i]), dir, radius).None?)
    decreases |steps|
  {
    if |steps| > 0 {
      var rest := steps[1..];
      SweepStepsMeaning(rest, cands, cur, dir, radius);
      var h := SweepSteps(steps, cands, cur, dir, radius);
      if FirstContact(cands, At(cur, dir, steps[0]), dir, radius).None? {
        assert h == SweepSteps(rest, cands, cur, dir, radius);
        assert forall i | 1 <= i < |steps| :: steps[i] == rest[i - 1];
      }
    }
  }

  /**
   * findFirstCollision without its side effects: the first candidate, in list order,
   * that the circle touches at the earliest scheduled distance.
   */
  function SweepCandidates(cands: seq<Rect>, cur: Vec, dir: Vec, distance: real, radius: real): (h: Option<Hit>)
    ensures distance < MinStep ==> h.None?
    ensures h.Some? ==> 0.0 < h.value.fields.traveled <= distance && h.value.index < |cands|
  {
    SweepSteps(ScheduleFrom(0.0, distance), cands, cur, dir, radius)
  }

  /** The sweep's result in terms of the positions on the schedule and the probes there. */
  lemma SweepCandidatesMeaning(cands: seq<Rect>, cur: Vec, dir: Vec, distance: real, radius: real)
    ensures var h := SweepCandidates(cands, cur, dir, distance, radius);
            (h.None? <==> forall t | t in ScheduleFrom(0.0, distance) ::
                            FirstContact(cands, At(cur, dir, t), dir, radius).None?)
    ensures var h := SweepCandidates(cands, cur, dir, distance, radius);
            (h.Some? ==>
               && h.value.fields.traveled in ScheduleFrom(0.0, distance)
               && FirstContact(cands, At(cur, dir, h.value.fields.traveled), dir, radius).Some?
               && h.value == ToHit(FirstContact(cands, At(cur, dir, h.value.fields.traveled), dir, radius).value,
                                   h.value.fields.traveled)
               && (forall t | t in ScheduleFrom(0.0, distance) && t < h.value.fields.traveled ::
                     FirstContact(cands, At(cur, dir, t), dir, radius).None?))
  {
    var steps := ScheduleFrom(0.0, distance);
    SweepStepsMeaning(steps, cands, cur, dir, radius);
    assert forall t | t in steps :: exists i :: 0 <= i < |steps| && steps[i] == t;
  }

  /**
   * A hit is recorded either a whole number of strides along the path, so at least one
   * stride, or at the full distance.  A caller that subtracts the hit distance from the
   * distance left therefore makes progress.
   */
  lemma SweepAdvances(cands: seq<Rect>, cur: Vec, dir: Vec, distance: real, radius: real)
    requires SweepCandidates(cands, cur, dir, distance, radius).Some?
    ensures var t := SweepCandidates(cands, cur, dir, distance, radius).value.fields.traveled;
            t == distance || t >= MaxStep
  {
    SweepCandidatesMeaning(cands, cur, dir, distance, radius);
    var s := ScheduleFrom(0.0, distance);
    var t := SweepCandidates(cands, cur, dir, distance, radius).value.fields.traveled;
    var i :| 0 <= i < |s| && s[i] == t;
    if i < |s| - 1 {
      assert s[i] == 0.0 + MaxStep * (i + 1) as real;
    }
  }

  /** The stride the sweep takes from `traveled`: MaxStep, or the jump to `distance`. */
  function NextStep(traveled: real, distance: real): real
  {
    if distance - traveled > MaxStep then traveled + MaxStep else distance
  }

  /** The schedule unfolds one stride at a time while there is a stride to take. */
  lemma ScheduleUnfold(traveled: real, distance: real)
    requires traveled < distance
    requires distance - traveled > MaxStep || distance - traveled >= MinStep
    ensures ScheduleFrom(traveled, distance)
         == [NextStep(traveled, distance)] + ScheduleFrom(NextStep(traveled, distance), distance)
  {
  }

  /** The sweep over a non-empty schedule looks at its first distance first. */
  lemma SweepUnfold(t: real, rest: seq<real>, cands: seq<Rect>, cur: Vec, dir: Vec, radius: real)
    ensures SweepSteps([t] + rest, cands, cur, dir, radius)
         == match FirstContact(cands, At(cur, dir, t), dir, radius)
            case Some(f) => Some(ToHit(f, t))
            case None => SweepSteps(rest, cands, cur, dir, radius)
  {
    assert ([t] + rest)[1..] == rest;
  }

  /** One stride of the sweep: probe at the next distance, or carry on from there. */
  lemma SweepStride(traveled: real, distance: real, cands: seq<Rect>, cur: Vec, dir: Vec, radius: real)
    requires traveled < distance
    requires distance - traveled > MaxStep || distance - traveled >= MinStep
    ensures var t := NextStep(traveled, distance);
            (SweepSteps(ScheduleFrom(traveled, distance), cands, cur, dir, radius)
             == match FirstContact(cands, At(cur, dir, t), dir, radius)
                case Some(f) => Some(ToHit(f, t))
                case None => SweepSteps(ScheduleFrom(t, distance), cands, cur, dir, radius))
  {
    var t := NextStep(traveled, distance);
    ScheduleUnfold(traveled, distance);
    SweepUnfold(t, ScheduleFrom(t, distance), cands, cur, dir, radius);
  }

  /** Nothing left to probe: the rest of the sweep misses. */
  lemma SweepDone(traveled: real, distance: real, cands: seq<Rect>, cur: Vec, dir: Vec, radius: real)
    requires !(traveled < distance) || (!(distance - traveled > MaxStep) && distance - traveled < MinStep)
    ensures SweepSteps(ScheduleFrom(traveled, distance), cands, cur, dir, radius) == None
  {
  }

  /** A first success at index j, after failures at every earlier index, is what FirstContact finds. */
  lemma FirstContactAt(cands: seq<Rect>, p: Vec, dir: Vec, radius: real, j: nat)
    requires j < |cands|
    requires forall k | 0 <= k < j :: Probe(p, dir, cands[k], radius).None?
    requires Probe(p, dir, cands[j], radius).Some?
    ensures FirstContact(cands, p, dir, radius) == Some(Found(j, Probe(p, dir, cands[j], radius).value))
  {
    var r := FirstContact(cands, p, dir, radius);
    assert r.Some?;
    assert r.value.index == j;
  }

  /** The inner loop of findFirstCollision: scan the candidates in order at one position. */
  method ScanCandidates(cands: seq<Rect>, p: Vec, dir: Vec, radius: real) returns (r: Option<Found>)
    ensures r == FirstContact(cands, p, dir, radius)
  {
    var j := 0;
    while j < |cands|
      invariant 0 <= j <= |cands|
      invariant forall k | 0 <= k < j :: Probe(p, dir, cands[k], radius).None?
    {
      var c := Probe(p, dir, cands[j], radius);
      if c.Some? {
        FirstContactAt(cands, p, dir, radius, j);
        return Some(Found(j, c.value));
      }
      j := j + 1;
    }
    return None;
  }

  /**
   * The loop of findFirstCollision as the source writes it: advance `traveled`, then
   * scan the candidates in order and stop at the first contact.
   */
  method FindFirstCollisionLoop(cands: seq<Rect>, cur: Vec, dir: Vec, distance: real, radius: real)
    returns (h: Option<Hit>)
    ensures h == SweepCandidates(cands, cur, dir, distance, radius)
  {
    var traveled := 0.0;
    ghost var goal := SweepCandidates(cands, cur, dir, distance, radius);
    while traveled < distance
      invariant goal == SweepSteps(ScheduleFrom(traveled, distance), cands, cur, dir, radius)
      decreases if traveled < distance then (distance - traveled).Floor + 1 else 0
    {
      if !(distance - traveled > MaxStep) && distance - traveled < MinStep {
        break;
      }
      SweepStride(traveled, distance, cands, cur, dir, radius);
      traveled := NextStep(traveled, distance);
      var found := ScanCandidates(cands, At(cur, dir, traveled), dir, radius);
      if found.Some? {
        return Some(ToHit(found.value, traveled));
      }
    }
    SweepDone(traveled, distance, cands, cur, dir, radius);
    h := None;
  }

  // ---------------------------------------------------------------------------
  // The single-object sweep (collidedWith)
  // ---------------------------------------------------------------------------

  /** collidedWith's loop, written out separately as the source duplicates it. */
  function SweepSingleFrom(o: Rect, cur: Vec, dir: Vec, distance: real, radius: real, traveled: real): (h: Option<HitFields>)
    ensures h.Some? ==> traveled < h.value.traveled <= distance
    decreases if traveled < distance then (distance - traveled).Floor + 1 else 0
  {
    if !(traveled < distance) then None
    else if !(distance - traveled > MaxStep) && distance - traveled < MinStep then None
    else
      var t := if distance - traveled > MaxStep then traveled + MaxStep else distance;
      match Probe(At(cur, dir, t), dir, o, radius)
      case Some(c) => Some(HitFields(c.face, t, c.xAdj, c.yAdj))
      case None => SweepSingleFrom(o, cur, dir, distance, radius, t)
  }

  lemma {:induction false} SweepSingleAgrees(o: Rect, cur: Vec, dir: Vec, distance: real, radius: real, traveled: real)
    ensures SweepSingleFrom(o, cur, dir, distance, radius, traveled)
         == (match SweepSteps(ScheduleFrom(traveled, distance), [o], cur, dir, radius)
             case None => None
             case Some(h) => Some(h.fields))
    ensures SweepSteps(ScheduleFrom(traveled, distance), [o], cur, dir, radius).Some? ==>
              SweepSteps(ScheduleFrom(traveled, distance), [o], cur, dir, radius).value.index == 0
    decreases if traveled < distance then (distance - traveled).Floor + 1 else 0
  {
    if traveled < distance && !(!(distance - traveled > MaxStep) && distance - traveled < MinStep) {
      var t := if distance - traveled > MaxStep then traveled + MaxStep else distance;
      assert ScheduleFrom(traveled, distance) == [t] + ScheduleFrom(t, distance);
      SweepStepsCons(t, ScheduleFrom(t, distance), [o], cur, dir, radius);
      SingleContact(o, At(cur, dir, t), dir, radius);
      SweepSingleAgrees(o, cur, dir, distance, radius, t);
    }
  }

  /** The sweep over a schedule tries its first distance, then goes on with the rest. */
  lemma SweepStepsCons(t: real, rest: seq<real>, cands: seq<Rect>, cur: Vec, dir: Vec, radius: real)
    ensures SweepSteps([t] + rest, cands, cur, dir, radius)
         == (match FirstContact(cands, At(cur, dir, t), dir, radius)
             case Some(f) => Some(ToHit(f, t))
             case None => SweepSteps(rest, cands, cur, dir, radius))
  {
    assert ([t] + rest)[0] == t && ([t] + rest)[1..] == rest;
  }

  /** Over the one-element list [o], the first contact is the probe against o. */
  lemma SingleContact(o: Rect, p: Vec, dir: Vec, radius: real)
    ensures FirstContact([o], p, dir, radius)
         == (match Probe(p, dir, o, radius)
             case Some(c) => Some(Found(0, c))
             case None => None)
  {
    assert [o][1..] == [];
  }

  // ---------------------------------------------------------------------------
  // Object state: candidate list and hit fields
  // ---------------------------------------------------------------------------

  /** The collision state a BaseRect carries: possible collisions and the last hit's fields. */
  datatype Collider<T> = Collider(candidates: seq<T>, hit: HitFields)

  /** A fresh object: an empty list and zeroed hit fields (face code 0). */
  const NoHit: HitFields := HitFields(NoFace, 0.0, 0.0, 0.0)

  /** addCollision: append to the list of possible collisions. */
  function AddCollision<T>(c: Collider<T>, possible: T): (c': Collider<T>)
    ensures c'.candidates == c.candidates + [possible]
    ensures c'.hit == c.hit
  {
    c.(candidates := c.candidates + [possible])
  }

  /**
   * findFirstCollision with its side effects.  `geometry[i]` is the rectangle of
   * candidate i as it stands when the sweep runs.
   */
  function FindFirstCollision<T>(c: Collider<T>, geometry: seq<Rect>, cur: Vec, dir: Vec, distance: real, radius: real)
    : (r: (Collider<T>, Option<T>))
    requires |geometry| == |c.candidates|
    // a miss changes nothing and returns null
    ensures r.1.None? ==> r.0 == c
    ensures r.1.None? <==> SweepCandidates(geometry, cur, dir, distance, radius).None?
    // a hit empties the list, records the sweep's fields and returns that candidate
    ensures r.1.Some? ==>
              && r.0.candidates == []
              && 0.0 < r.0.hit.traveled <= distance
              && r.0.hit == SweepCandidates(geometry, cur, dir, distance, radius).value.fields
              && r.1.value == c.candidates[SweepCandidates(geometry, cur, dir, distance, radius).value.index]
  {
    match SweepCandidates(geometry, cur, dir, distance, radius)
    case None => (c, None)
    case Some(h) => (Collider([], h.fields), Some(c.candidates[h.index]))
  }

  /** collidedWith with its side effects; it too clears the list on a hit. */
  function CollidedWith<T>(c: Collider<T>, o: Rect, cur: Vec, dir: Vec, distance: real, radius: real)
    : (r: (Collider<T>, bool))
    ensures !r.1 ==> r.0 == c
    ensures r.1 ==> r.0.candidates == [] && 0.0 < r.0.hit.traveled <= distance
  {
    match SweepSingleFrom(o, cur, dir, distance, radius, 0.0)
    case None => (c, false)
    case Some(fields) =>
      SweepSingleAgrees(o, cur, dir, distance, radius, 0.0);
      (Collider([], fields), true)
  }

  /**
   * collidedWith(o) reports and records exactly what findFirstCollision would with the
   * candidate list [o].
   */
  lemma CollidedWithIsFindFirstOnOne<T>(c: Collider<T>, handle: T, o: Rect, cur: Vec, dir: Vec, distance: real, radius: real)
    ensures CollidedWith(c, o, cur, dir, distance, radius).1
        <==> FindFirstCollision(c.(candidates := [handle]), [o], cur, dir, distance, radius).1.Some?
    ensures CollidedWith(c, o, cur, dir, distance, radius).1 ==>
              CollidedWith(c, o, cur, dir, distance, radius).0
              == FindFirstCollision(c.(candidates := [handle]), [o], cur, dir, distance, radius).0
    ensures FindFirstCollision(c.(candidates := [handle]), [o], cur, dir, distance, radius).1.Some? ==>
              FindFirstCollision(c.(candidates := [handle]), [o], cur, dir, distance, radius).1.value == handle
  {
    SweepSingleAgrees(o, cur, dir, distance, radius, 0.0);
  }

  // ---------------------------------------------------------------------------
  // The coarse test never rejects a contact the fine test would find
  // ---------------------------------------------------------------------------

  /** A point between 0 and q (on either side) shifted by c lies between c and c + q. */
  lemma Between(c: real, p: real, q: real)
    requires (0.0 <= p <= q) || (q <= p <= 0.0)
    ensures (if c < c + q then c else c + q) <= c + p <= Max(c, c + q)
  {
  }

  /** Along one axis, every point of the segment lies between its two ends. */
  lemma BetweenEnds(c: real, d: real, t: real, dist: real)
    requires 0.0 <= t <= dist
    ensures (if c < c + d * dist then c else c + d * dist) <= c + d * t <= Max(c, c + d * dist)
  {
    if d >= 0.0 {
      ScaleNonneg(d, t, dist);
    } else {
      ScaleNeg(d, t, dist);
    }
    Between(c, d * t, d * dist);
  }

  /** A non-negative factor keeps 0 <= t <= dist in order. */
  lemma ScaleNonneg(d: real, t: real, dist: real)
    requires 0.0 <= d && 0.0 <= t <= dist
    ensures 0.0 <= d * t <= d * dist
  {
    MulLeft(d, t, dist);
    MulNonneg(d, t);
  }

  /** A negative factor reverses 0 <= t <= dist. */
  lemma ScaleNeg(d: real, t: real, dist: real)
    requires d < 0.0 && 0.0 <= t <= dist
    ensures d * dist <= d * t <= 0.0
  {
    ScaleNonneg(-d, t, dist);
    NegMul(d, t);
    NegMul(d, dist);
  }

  /**
   * One axis of the coarse test: a centre within half the scale plus the radius of the
   * target centre, lying between the ends of the sweep, puts the grown sweep interval
   * and the full-scale target interval into open overlap.
   */
  lemma AxisOverlap(p: real, lo: real, hi: real, center: real, scale: real, radius: real)
    requires lo <= p <= hi
    requires Abs(p - center) <= scale / 2.0 + radius
    requires scale > 0.0 && radius > 0.0
    ensures OpenOverlap(center - scale, center + scale, lo - radius, hi + radius)
  {
  }

  /** Touching puts the folded centre within half the scale plus the radius on each axis. */
  lemma TouchesBounds(circle: Vec, rect: Rect, radius: real)
    requires radius >= 0.0
    requires Touches(circle, rect, radius)
    ensures Folded(circle, rect).x <= Half(rect).x + radius
    ensures Folded(circle, rect).y <= Half(rect).y + radius
  {
    var ex := Max(0.0, Folded(circle, rect).x - Half(rect).x);
    var ey := Max(0.0, Folded(circle, rect).y - Half(rect).y);
    MulNonneg(ex, ex);
    MulNonneg(ey, ey);
    SquareMonotone(ex, radius);
    SquareMonotone(ey, radius);
  }

  /** The coarse test on the swept box passes once a point between its ends is close enough on both axes. */
  lemma CoarseFromEnds(rect: Rect, cur: Vec, fin: Vec, p: Vec, radius: real)
    requires radius > 0.0 && rect.xs > 0.0 && rect.ys > 0.0
    requires (if cur.x < fin.x then cur.x else fin.x) <= p.x <= Max(cur.x, fin.x)
    requires (if cur.y < fin.y then cur.y else fin.y) <= p.y <= Max(cur.y, fin.y)
    requires Folded(p, rect).x <= Half(rect).x + radius
    requires Folded(p, rect).y <= Half(rect).y + radius
    ensures var b := SweptBox(cur, fin, radius);
            CheckCoarseCollision(rect, b.left, b.right, b.bottom, b.top)
  {
    AxisOverlap(p.x, if cur.x < fin.x then cur.x else fin.x, Max(cur.x, fin.x), rect.x, rect.xs, radius);
    AxisOverlap(p.y, if cur.y < fin.y then cur.y else fin.y, Max(cur.y, fin.y), rect.y, rect.ys, radius);
  }

  /** The coarse test on the swept box passes once some point of the sweep is close enough on both axes. */
  lemma CoarseFromBounds(rect: Rect, cur: Vec, dir: Vec, distance: real, t: real, radius: real)
    requires radius > 0.0 && rect.xs > 0.0 && rect.ys > 0.0
    requires 0.0 <= t <= distance
    requires Folded(At(cur, dir, t), rect).x <= Half(rect).x + radius
    requires Folded(At(cur, dir, t), rect).y <= Half(rect).y + radius
    ensures var b := SweptBox(cur, At(cur, dir, distance), radius);
            CheckCoarseCollision(rect, b.left, b.right, b.bottom, b.top)
  {
    BetweenEnds(cur.x, dir.x, t, distance);
    BetweenEnds(cur.y, dir.y, t, distance);
    CoarseFromEnds(rect, cur, At(cur, dir, distance), At(cur, dir, t), radius);
  }

  /**
   * If the circle touches `rect` anywhere along the segment, the coarse test on the
   * swept box passes (for a positive radius and a rectangle of positive size).
   */
  lemma CoarseNeverMisses(rect: Rect, cur: Vec, dir: Vec, distance: real, t: real, radius: real)
    requires radius > 0.0 && rect.xs > 0.0 && rect.ys > 0.0
    requires 0.0 <= t <= distance
    requires Touches(At(cur, dir, t), rect, radius)
    ensures var b := SweptBox(cur, At(cur, dir, distance), radius);
            CheckCoarseCollision(rect, b.left, b.right, b.bottom, b.top)
  {
    TouchesBounds(At(cur, dir, t), rect, radius);
    CoarseFromBounds(rect, cur, dir, distance, t, radius);
  }

  /** So a candidate the coarse test rejects can never be struck by the sweep. */
  lemma CoarseRejectionIsSafe(rect: Rect, cur: Vec, dir: Vec, distance: real, radius: real)
    requires radius > 0.0 && rect.xs > 0.0 && rect.ys > 0.0
    requires var b := SweptBox(cur, At(cur, dir, distance), radius);
             !CheckCoarseCollision(rect, b.left, b.right, b.bottom, b.top)
    ensures SweepCandidates([rect], cur, dir, distance, radius).None?
  {
    var h := SweepCandidates([rect], cur, dir, distance, radius);
    SweepCandidatesMeaning([rect], cur, dir, distance, radius);
    if h.Some? {
      var t := h.value.fields.traveled;
      ProbeIffTouches(At(cur, dir, t), dir, rect, radius);
      CoarseNeverMisses(rect, cur, dir, distance, t, radius);
    }
  }
}
