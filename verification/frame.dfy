/**
 * calculateNextFrame and the two passes it runs: moveBalls, which drops balls that have
 * left the arena (at a score penalty) and moves the rest, and moveEnemies, which sweeps
 * every enemy along its path against the balls and the player.  The clock reading and
 * the generator's draws for a pending enemy spawn are inputs.
 */
module Frame {
  import opened Wrappers
  import opened Geometry
  import opened BaseRect
  import opened Bodies
  import opened Arena
  import opened GameState
  import EnemyFactory

  const NanosPerSecond: real := 1000000000.0
  /** The longest frame step simulated; a longer gap between frames is cut to this. */
  const MaxFrameDeltaSec: real := 0.5
  /** The pause setPauseTime records when the game leaves the ready state. */
  const ReadyPause: real := 0.5
  /** Points lost for every ball that leaves the arena. */
  const BallPenalty: int := 10

  /** Ways a frame ends in an exception instead of a new state. */
  datatype Crash =
    | SpawnFailed(error: EnemyFactory.SpawnError)  // the pending enemy spawn threw or produced no direction
    | EnemyRemovedTwice                            // iter.remove() on an enemy already removed this frame
    | NoPlayer                                     // an enemy moved before allocPlayer ran

  // ---------------------------------------------------------------------------
  // Frame timing
  // ---------------------------------------------------------------------------

  /** The seconds since the previous frame, capped at MaxFrameDeltaSec. */
  function FrameDelta(prev: int, now: int): (r: real)
    ensures r <= MaxFrameDeltaSec
    ensures now > prev ==> r > 0.0
    ensures now <= prev ==> r <= 0.0
  {
    var elapsed := (now - prev) as real / NanosPerSecond;
    if elapsed > MaxFrameDeltaSec then MaxFrameDeltaSec else elapsed
  }

  /** Half a second or less of clock is simulated as it is; anything longer as half a second. */
  lemma FrameDeltaCapped(prev: int, now: int)
    ensures now - prev <= 500000000 ==> FrameDelta(prev, now) * NanosPerSecond == (now - prev) as real
    ensures now - prev >= 500000000 ==> FrameDelta(prev, now) == MaxFrameDeltaSec
    ensures FrameDelta(prev, now) <= MaxFrameDeltaSec
  {
  }

  // ---------------------------------------------------------------------------
  // moveBalls
  // ---------------------------------------------------------------------------

  /** isOutOfBounds: the centre is more than a radius beyond one of the arena's edges. */
  function IsOutOfBounds(d: Dimensions, x: real, y: real, r: real): (b: bool)
    ensures r >= 0.0 && 0.0 <= x <= d.width && 0.0 <= y <= d.height ==> !b
    ensures x < -r || y < -r ==> b
  {
    x < -r || y < -r || x > d.width + r || y > d.height + r
  }

  /** A point of the closed arena. */
  predicate InArena(d: Dimensions, p: Vec)
  {
    0.0 <= p.x <= d.width && 0.0 <= p.y <= d.height
  }

  /** A point of the closed square of half-side `r` around (x, y). */
  predicate InSquare(p: Vec, x: real, y: real, r: real)
  {
    Abs(p.x - x) <= r && Abs(p.y - y) <= r
  }

  /**
   * A ball is out of bounds exactly when the square of half-side `r` around its centre
   * shares no point with the closed arena.
   */
  lemma OutOfBoundsMeaning(d: Dimensions, x: real, y: real, r: real)
    requires d.width >= 0.0 && d.height >= 0.0 && r >= 0.0
    ensures IsOutOfBounds(d, x, y, r) <==> !exists p: Vec :: InSquare(p, x, y, r) && InArena(d, p)
  {
    if !IsOutOfBounds(d, x, y, r) {
      var px := if x < 0.0 then 0.0 else if x > d.width then d.width else x;
      var py := if y < 0.0 then 0.0 else if y > d.height then d.height else y;
      assert InSquare(Vec(px, py), x, y, r) && InArena(d, Vec(px, py));
    } else {
      forall p: Vec | InArena(d, p)
        ensures !InSquare(p, x, y, r)
      {
      }
    }
  }

  /** The score after one lost ball: ten less, but never below zero. */
  function Penalize(score: int): (s: int)
    ensures s >= 0
    ensures s == score - BallPenalty || (s == 0 && score < BallPenalty)
  {
    if score < BallPenalty then 0 else score - BallPenalty
  }

  /** The score after `k` lost balls, in closed form. */
  function PenalizeTimes(score: int, k: nat): int
  {
    if k == 0 then score else if score - BallPenalty * k < 0 then 0 else score - BallPenalty * k
  }

  /** One more penalty on top of `k` is the closed form for `k + 1`. */
  lemma PenalizeStep(score: int, k: nat)
    ensures PenalizeTimes(Penalize(score), k) == PenalizeTimes(score, k + 1)
  {
  }

  /** The distance a body covers in `dt` seconds. */
  function Travel(b: Body, dt: real): real
  {
    b.speed as real * dt
  }

  /** The inner loop of moveBalls: one jump along the direction when there is distance to cover. */
  function MoveBall(b: Body, dt: real): (b': Body)
    ensures Travel(b, dt) > 0.0 ==> b' == MoveTo(b, At(Center(b), b.dir, Travel(b, dt)).x, At(Center(b), b.dir, Travel(b, dt)).y)
    ensures Travel(b, dt) <= 0.0 ==> b' == b
  {
    var distance := Travel(b, dt);
    if distance > 0.0 then
      var fin := At(Center(b), b.dir, distance);
      MoveTo(b, fin.x, fin.y)
    else b
  }

  datatype BallsEnd = BallsEnd(balls: seq<BallId>, heap: map<BallId, Body>, score: int)

  /**
   * moveBalls over the balls in play, in order: a ball out of bounds is dropped and costs
   * the penalty; every other ball moves.
   */
  function MoveBalls(ids: seq<BallId>, heap: map<BallId, Body>, d: Dimensions, dt: real, score: int): (r: BallsEnd)
    requires forall id | id in ids :: id in heap
    ensures r.heap.Keys == heap.Keys
    ensures forall id | id in r.balls :: id in ids
    ensures |r.balls| <= |ids|
    ensures r.score == PenalizeTimes(score, |ids| - |r.balls|)
    decreases |ids|
  {
    if |ids| == 0 then BallsEnd([], heap, score)
    else
      var id := ids[0];
      var b := heap[id];
      if IsOutOfBounds(d, b.rect.x, b.rect.y, Radius(b)) then
        var rest := MoveBalls(ids[1..], heap, d, dt, Penalize(score));
        PenalizeStep(score, |ids| - 1 - |rest.balls|);
        rest
      else
        var rest := MoveBalls(ids[1..], heap[id := MoveBall(b, dt)], d, dt, score);
        BallsEnd([id] + rest.balls, rest.heap, rest.score)
  }

  /**
   * With no ball in play twice: exactly the balls in bounds at the start of the frame stay,
   * none of them twice; each of them has moved and every other ball is as it was.
   */
  lemma {:induction false} MoveBallsMeaning(ids: seq<BallId>, heap: map<BallId, Body>, d: Dimensions, dt: real, score: int)
    requires forall id | id in ids :: id in heap
    requires Distinct(ids)
    ensures var r := MoveBalls(ids, heap, d, dt, score);
            forall id | id in ids :: id in r.balls <==> !IsOutOfBounds(d, heap[id].rect.x, heap[id].rect.y, Radius(heap[id]))
    ensures Distinct(MoveBalls(ids, heap, d, dt, score).balls)
    ensures var r := MoveBalls(ids, heap, d, dt, score);
            forall id | id in heap :: r.heap[id] == if id in r.balls then MoveBall(heap[id], dt) else heap[id]
    decreases |ids|
  {
    if |ids| > 0 {
      var id := ids[0];
      var b := heap[id];
      assert forall i | 1 <= i < |ids| :: ids[i] != id;
      assert Distinct(ids[1..]) by {
        forall i, j | 0 <= i < j < |ids[1..]| ensures ids[1..][i] != ids[1..][j] {
          assert ids[1..][i] == ids[i + 1] && ids[1..][j] == ids[j + 1];
        }
      }
      if IsOutOfBounds(d, b.rect.x, b.rect.y, Radius(b)) {
        MoveBallsMeaning(ids[1..], heap, d, dt, Penalize(score));
      } else {
        var heap' := heap[id := MoveBall(b, dt)];
        MoveBallsMeaning(ids[1..], heap', d, dt, score);
        assert forall x | x in ids[1..] :: heap'[x] == heap[x];
        var rest := MoveBalls(ids[1..], heap', d, dt, score);
        assert id !in rest.balls;
        assert forall i | 0 <= i < |rest.balls| :: ([id] + rest.balls)[i + 1] == rest.balls[i];
      }
    }
  }

  // ---------------------------------------------------------------------------
  // moveEnemies
  // ---------------------------------------------------------------------------

  /** The rectangles of the balls `ids` refer to. */
  function Rects(ids: seq<BallId>, heap: map<BallId, Body>): (rs: seq<Rect>)
    requires forall id | id in ids :: id in heap
    ensures |rs| == |ids|
    ensures forall i | 0 <= i < |ids| :: rs[i] == heap[ids[i]].rect
  {
    seq(|ids|, i requires 0 <= i < |ids| => heap[ids[i]].rect)
  }

  /** The balls, in list order, whose coarse test against the swept box succeeds. */
  function CoarseMatches(balls: seq<BallId>, heap: map<BallId, Body>, box: Box): (found: seq<BallId>)
    requires forall id | id in balls :: id in heap
    ensures forall id | id in found :: id in balls
    ensures forall id | id in balls :: id in found <==> CheckCoarseCollision(heap[id].rect, box.left, box.right, box.bottom, box.top)
    decreases |balls|
  {
    if |balls| == 0 then []
    else
      var first := if CheckCoarseCollision(heap[balls[0]].rect, box.left, box.right, box.bottom, box.top)
                   then [balls[0]] else [];
      var rest := CoarseMatches(balls[1..], heap, box);
      assert forall id | id in balls :: id == balls[0] || id in balls[1..];
      first + rest
  }

  /** List.remove(Object): drop the first occurrence, if any. */
  function RemoveBall(balls: seq<BallId>, id: BallId): (r: seq<BallId>)
    ensures forall x | x in r :: x in balls
    ensures id !in balls ==> r == balls
    ensures id in balls ==> |r| == |balls| - 1
    ensures Distinct(balls) ==> Distinct(r) && id !in r && forall x | x in balls && x != id :: x in r
    decreases |balls|
  {
    if |balls| == 0 then []
    else if balls[0] == id then
      assert Distinct(balls) ==> forall i | 1 <= i < |balls| :: balls[i] != id;
      balls[1..]
    else
      var rest := RemoveBall(balls[1..], id);
      assert Distinct(balls) ==> Distinct(balls[1..]) by {
        if Distinct(balls) {
          forall i, j | 0 <= i < j < |balls[1..]| ensures balls[1..][i] != balls[1..][j] {
            assert balls[1..][i] == balls[i + 1] && balls[1..][j] == balls[j + 1];
          }
        }
      }
      assert Distinct(balls) ==> balls[0] !in rest;
      assert forall i | 0 <= i < |rest| :: ([balls[0]] + rest)[i + 1] == rest[i];
      [balls[0]] + rest
  }

  /** One enemy in the middle of its pass: its state, whether it has left the list, the balls in play. */
  datatype Pass = Pass(enemy: Body, removed: bool, balls: seq<BallId>)

  datatype PassEnd =
    | Settled(pass: Pass)        // the distance is used up
    | StruckPlayer(pass: Pass)   // moveEnemies returns EVENT_HIT_PLAYER
    | PassCrash(reason: Crash)

  /** The references a pass holds are to allocated balls. */
  predicate PassWf(p: Pass, heap: map<BallId, Body>)
  {
    && (forall id | id in p.balls :: id in heap)
    && (forall id | id in p.enemy.collider.candidates :: id in heap)
  }

  /** The measure the inner loop of moveEnemies decreases. */
  function Remaining(distance: real): nat
  {
    if distance > 0.0 then distance.Floor + 1 else 0
  }

  /** The enemy keeps its direction, speed, colour and size. */
  predicate KeepsMotion(e: Body, e0: Body)
  {
    && e.dir == e0.dir && e.speed == e0.speed && e.color == e0.color
    && e.rect.xs == e0.rect.xs && e.rect.ys == e0.rect.ys
  }

  /** How one turn of the inner loop of moveEnemies ends. */
  datatype Step =
    | Done(end: PassEnd)                            // the pass ends on this turn
    | BallHit(next: Pass, left: real, id: BallId)   // ball `id` struck the enemy and the loop goes on

  /**
   * One turn of the inner loop of moveEnemies with `distance` left: build the swept box,
   * add the balls it meets to the enemy's possible collisions, test the player, then
   * sweep the possible collisions.  A hit removes the enemy and the ball and leaves the
   * rest of the distance to the next turn without moving the enemy; a miss moves it to
   * the end and ends the pass.
   */
  function PassStep(p: Pass, heap: map<BallId, Body>, player: Option<Rect>, distance: real): (s: Step)
    requires PassWf(p, heap)
    ensures distance <= 0.0 ==> s == Done(Settled(p))
    ensures s.Done? && !s.end.PassCrash? ==>
              && PassWf(s.end.pass, heap) && KeepsMotion(s.end.pass.enemy, p.enemy)
              && s.end.pass.removed == p.removed && s.end.pass.balls == p.balls
    ensures s.Done? && s.end.Settled? && distance > 0.0 ==>
              Center(s.end.pass.enemy) == At(Center(p.enemy), p.enemy.dir, distance)
    ensures s.Done? && s.end.StruckPlayer? ==> player.Some? && distance > 0.0
    ensures s.Done? && s.end.PassCrash? ==> distance > 0.0 && (player.None? || p.removed)
    // a miss keeps what the coarse test added to the possible collisions, and the hit fields
    ensures s.Done? && s.end.Settled? && distance > 0.0 && player.Some? ==>
              && s.end.pass.enemy.collider.candidates
                 == p.enemy.collider.candidates
                    + CoarseMatches(p.balls, heap, SweptBox(Center(p.enemy), At(Center(p.enemy), p.enemy.dir, distance), Radius(p.enemy)))
              && s.end.pass.enemy.collider.hit == p.enemy.collider.hit
    // a ball hit leaves the enemy where it stood, with the list cleared, and the loop goes
    // on with the distance the sweep did not use
    ensures s.BallHit? ==>
              && distance > 0.0 && player.Some? && !p.removed
              && PassWf(s.next, heap) && KeepsMotion(s.next.enemy, p.enemy)
              && s.next.removed && s.next.balls == RemoveBall(p.balls, s.id)
              && s.next.enemy.rect == p.enemy.rect && s.next.enemy.collider.candidates == []
              && 0.0 < s.next.enemy.collider.hit.traveled <= distance
              && s.left == distance - s.next.enemy.collider.hit.traveled
              && Remaining(s.left) < Remaining(distance)
  {
    if distance <= 0.0 then Done(Settled(p))
    else if player.None? then Done(PassCrash(NoPlayer))
    else
      var e := p.enemy;
      var radius := Radius(e);
      var cur := Center(e);
      var fin := At(cur, e.dir, distance);
      var box := SweptBox(cur, fin, radius);
      var found := CoarseMatches(p.balls, heap, box);
      var c := e.collider.(candidates := e.collider.candidates + found);
      var touched := CollidedWith(c, player.value, cur, e.dir, distance, radius);
      if CheckCoarseCollision(player.value, box.left, box.right, box.bottom, box.top) && touched.1 then
        Done(StruckPlayer(Pass(e.(collider := touched.0), p.removed, p.balls)))
      else if |found| != 0 then
        var swept := FindFirstCollision(c, Rects(c.candidates, heap), cur, e.dir, distance, radius);
        match swept.1
        case None => Done(Settled(Pass(MoveTo(e.(collider := swept.0), fin.x, fin.y), p.removed, p.balls)))
        case Some(id) =>
          if p.removed then Done(PassCrash(EnemyRemovedTwice))
          else
            SweepAdvances(Rects(c.candidates, heap), cur, e.dir, distance, radius);
            var left := distance - swept.0.hit.traveled;
            assert Remaining(left) < Remaining(distance) by {
              if left > 0.0 {
                assert left <= distance - MaxStep;
              }
            }
            BallHit(Pass(e.(collider := swept.0), true, RemoveBall(p.balls, id)), left, id)
      else
        Done(Settled(Pass(MoveTo(e.(collider := c), fin.x, fin.y), p.removed, p.balls)))
  }

  /** The inner loop of moveEnemies for one enemy: turns until one ends the pass. */
  function EnemyPass(p: Pass, heap: map<BallId, Body>, player: Option<Rect>, distance: real): (r: PassEnd)
    requires PassWf(p, heap)
    ensures !r.PassCrash? ==> PassWf(r.pass, heap)
    ensures !r.PassCrash? ==> forall id | id in r.pass.balls :: id in p.balls
    ensures distance <= 0.0 ==> r == Settled(p)
    ensures r.StruckPlayer? ==> player.Some? && distance > 0.0
    decreases Remaining(distance)
  {
    match PassStep(p, heap, player, distance)
    case Done(end) => end
    case BallHit(next, left, _) => EnemyPass(next, heap, player, left)
  }

  /**
   * What a pass does to the enemy and the balls: the enemy keeps its direction, speed,
   * colour and size; it leaves the list at most once and destroys at most one ball on the
   * way, and no ball leaves play unless the enemy does; a pass that hits nothing ends where
   * the enemy's direction and the distance take it.
   */
  lemma {:induction false} EnemyPassMeaning(p: Pass, heap: map<BallId, Body>, player: Option<Rect>, distance: real)
    requires PassWf(p, heap)
    ensures var r := EnemyPass(p, heap, player, distance);
            !r.PassCrash? ==> KeepsMotion(r.pass.enemy, p.enemy)
    ensures var r := EnemyPass(p, heap, player, distance);
            !r.PassCrash? ==> (p.removed ==> r.pass.removed) && (r.pass.removed == p.removed ==> r.pass.balls == p.balls)
    ensures var r := EnemyPass(p, heap, player, distance);
            !r.PassCrash? && Distinct(p.balls) ==> Distinct(r.pass.balls) && |r.pass.balls| + 1 >= |p.balls|
    ensures var r := EnemyPass(p, heap, player, distance);
            r.Settled? && r.pass.removed == p.removed && distance > 0.0 ==>
              Center(r.pass.enemy) == At(Center(p.enemy), p.enemy.dir, distance)
    decreases Remaining(distance)
  {
    match PassStep(p, heap, player, distance)
    case Done(_) =>
    case BallHit(next, left, _) =>
      EnemyPassMeaning(next, heap, player, left);
  }

  /**
   * The enemy strikes the player while it is still in the list exactly when, on its first
   * turn, the player's coarse test against the swept box and collidedWith both succeed.
   * `box`, `c` and `touched` are that turn's swept box, possible collisions and verdict.
   */
  lemma {:induction false} StrikesPlayerIff(p: Pass, heap: map<BallId, Body>, player: Option<Rect>, distance: real,
                                           box: Box, c: Collider<BallId>, touched: bool)
    requires PassWf(p, heap) && !p.removed && distance > 0.0 && player.Some?
    requires box == SweptBox(Center(p.enemy), At(Center(p.enemy), p.enemy.dir, distance), Radius(p.enemy))
    requires c == p.enemy.collider.(candidates := p.enemy.collider.candidates + CoarseMatches(p.balls, heap, box))
    requires touched == CollidedWith(c, player.value, Center(p.enemy), p.enemy.dir, distance, Radius(p.enemy)).1
    ensures var r := EnemyPass(p, heap, player, distance);
            (r.StruckPlayer? && !r.pass.removed)
            <==> CheckCoarseCollision(player.value, box.left, box.right, box.bottom, box.top) && touched
  {
    var step := PassStep(p, heap, player, distance);
    assert step.Done? && step.end.StruckPlayer? <==>
           CheckCoarseCollision(player.value, box.left, box.right, box.bottom, box.top) && touched;
    if step.BallHit? {
      EnemyPassMeaning(step.next, heap, player, step.left);
    }
  }

  /**
   * When the enemy misses the player but its fine sweep strikes ball `id`, recording the
   * hit fields in `hit`, the enemy leaves the list and that ball leaves play with it.  The
   * enemy is not moved: the turn hands on the enemy where it stood, with the list cleared,
   * and the distance the sweep did not use.  Unless a second ball strikes the removed
   * enemy (the crash), the pass ends removed with `id` taken out of the balls.
   */
  lemma {:induction false} HitRemovesEnemy(p: Pass, heap: map<BallId, Body>, player: Option<Rect>, distance: real,
                                           box: Box, c: Collider<BallId>, hit: Collider<BallId>, id: BallId)
    requires PassWf(p, heap) && !p.removed && distance > 0.0 && player.Some?
    requires box == SweptBox(Center(p.enemy), At(Center(p.enemy), p.enemy.dir, distance), Radius(p.enemy))
    requires CoarseMatches(p.balls, heap, box) != []
    requires c == p.enemy.collider.(candidates := p.enemy.collider.candidates + CoarseMatches(p.balls, heap, box))
    requires !(CheckCoarseCollision(player.value, box.left, box.right, box.bottom, box.top)
               && CollidedWith(c, player.value, Center(p.enemy), p.enemy.dir, distance, Radius(p.enemy)).1)
    requires FindFirstCollision(c, Rects(c.candidates, heap), Center(p.enemy), p.enemy.dir, distance, Radius(p.enemy))
             == (hit, Some(id))
    ensures hit.candidates == [] && 0.0 < hit.hit.traveled <= distance
    ensures PassStep(p, heap, player, distance)
            == BallHit(Pass(p.enemy.(collider := hit), true, RemoveBall(p.balls, id)), distance - hit.hit.traveled, id)
    ensures var r := EnemyPass(p, heap, player, distance);
            !r.PassCrash? ==> r.pass.removed && Keep(r.pass) == [] && r.pass.balls == RemoveBall(p.balls, id)
  {
    var step := PassStep(p, heap, player, distance);
    assert step.BallHit? && step.id == id;
    EnemyPassMeaning(step.next, heap, player, step.left);
  }

  /**
   * After a turn that ends in a ball hit the pass goes on as the pass of the next turn on
   * the distance left.  The enemy started that turn where it stood before the hit, so a
   * pass that then settles ends `left` along its direction from the starting point, short
   * of where it would have ended without the hit; it stays out of the list and keeps the
   * balls the hit left.
   */
  lemma {:induction false} HitContinues(p: Pass, heap: map<BallId, Body>, player: Option<Rect>, distance: real,
                                        next: Pass, left: real, id: BallId)
    requires PassWf(p, heap)
    requires PassStep(p, heap, player, distance) == BallHit(next, left, id)
    ensures PassWf(next, heap)
    ensures EnemyPass(p, heap, player, distance) == EnemyPass(next, heap, player, left)
    ensures var r := EnemyPass(p, heap, player, distance);
            !r.PassCrash? ==> r.pass.removed && r.pass.balls == RemoveBall(p.balls, id)
    ensures var r := EnemyPass(p, heap, player, distance);
            r.Settled? ==>
              Center(r.pass.enemy) == if left > 0.0 then At(Center(p.enemy), p.enemy.dir, left) else Center(p.enemy)
  {
    SettleAfterHit(next, heap, player, left);
  }

  /** A pass of an enemy already out of the list keeps it out and ends where its own step does. */
  lemma SettleAfterHit(next: Pass, heap: map<BallId, Body>, player: Option<Rect>, left: real)
    requires PassWf(next, heap) && next.removed
    ensures var r := EnemyPass(next, heap, player, left);
            !r.PassCrash? ==> r.pass.removed && r.pass.balls == next.balls
    ensures var r := EnemyPass(next, heap, player, left);
            r.Settled? ==>
              Center(r.pass.enemy) == if left > 0.0 then At(Center(next.enemy), next.enemy.dir, left) else Center(next.enemy)
  {
    EnemyPassMeaning(next, heap, player, left);
  }

  /**
   * The turn after a ball hit, on an enemy already out of the list: it strikes the player
   * iff the coarse test and collidedWith succeed; otherwise a ball struck by its fine sweep
   * is a second removal (the crash); otherwise it settles where its direction and the
   * distance take it, with the balls unchanged.  `box`, `c` and `touched` are that turn's
   * swept box, possible collisions and verdict.
   */
  lemma {:induction false} RemovedEnemyLastTurn(p: Pass, heap: map<BallId, Body>, player: Option<Rect>, distance: real,
                                                box: Box, c: Collider<BallId>, touched: bool)
    requires PassWf(p, heap) && p.removed && distance > 0.0 && player.Some?
    requires box == SweptBox(Center(p.enemy), At(Center(p.enemy), p.enemy.dir, distance), Radius(p.enemy))
    requires c == p.enemy.collider.(candidates := p.enemy.collider.candidates + CoarseMatches(p.balls, heap, box))
    requires touched == CollidedWith(c, player.value, Center(p.enemy), p.enemy.dir, distance, Radius(p.enemy)).1
    ensures var r := EnemyPass(p, heap, player, distance);
            r.StruckPlayer? <==> CheckCoarseCollision(player.value, box.left, box.right, box.bottom, box.top) && touched
    ensures var r := EnemyPass(p, heap, player, distance);
            r.PassCrash? <==>
              && !(CheckCoarseCollision(player.value, box.left, box.right, box.bottom, box.top) && touched)
              && CoarseMatches(p.balls, heap, box) != []
              && FindFirstCollision(c, Rects(c.candidates, heap), Center(p.enemy), p.enemy.dir, distance, Radius(p.enemy)).1.Some?
    ensures var r := EnemyPass(p, heap, player, distance);
            r.Settled? ==> Center(r.pass.enemy) == At(Center(p.enemy), p.enemy.dir, distance) && r.pass.balls == p.balls
  {
    var step := PassStep(p, heap, player, distance);
    assert step.Done?;
  }

  datatype EnemiesEnd =
    | Moved(enemies: seq<Body>, balls: seq<BallId>)
    | HitPlayer(enemies: seq<Body>, balls: seq<BallId>)
    | EnemiesCrash(reason: Crash)

  /** The enemy as it stands in the list after its pass: gone if the pass removed it. */
  function Keep(p: Pass): seq<Body>
  {
    if p.removed then [] else [p.enemy]
  }

  /** Every enemy's possible collisions are allocated balls. */
  predicate CandidatesAllocated(enemies: seq<Body>, heap: map<BallId, Body>)
  {
    forall i | 0 <= i < |enemies| :: forall id | id in enemies[i].collider.candidates :: id in heap
  }

  /**
   * moveEnemies: each enemy in turn makes its pass over the balls the earlier enemies
   * left; the first enemy to strike the player ends the loop and leaves the enemies after
   * it untouched.
   */
  function MoveEnemies(enemies: seq<Body>, balls: seq<BallId>, heap: map<BallId, Body>, player: Option<Rect>, dt: real)
    : (r: EnemiesEnd)
    requires forall id | id in balls :: id in heap
    requires CandidatesAllocated(enemies, heap)
    ensures !r.EnemiesCrash? ==> |r.enemies| <= |enemies| && CandidatesAllocated(r.enemies, heap)
    ensures !r.EnemiesCrash? ==> forall id | id in r.balls :: id in balls
    ensures r.HitPlayer? ==> player.Some?
    decreases |enemies|
  {
    if |enemies| == 0 then Moved([], balls)
    else
      assert forall id | id in enemies[0].collider.candidates :: id in heap;
      match EnemyPass(Pass(enemies[0], false, balls), heap, player, Travel(enemies[0], dt))
      case PassCrash(reason) => EnemiesCrash(reason)
      case StruckPlayer(p) =>
        CandidatesAllocatedTail(enemies, heap);
        KeepAllocated(p, enemies[1..], heap);
        HitPlayer(Keep(p) + enemies[1..], p.balls)
      case Settled(p) =>
        CandidatesAllocatedTail(enemies, heap);
        match MoveEnemies(enemies[1..], p.balls, heap, player, dt)
        case EnemiesCrash(reason) => EnemiesCrash(reason)
        case Moved(es, bs) => KeepAllocated(p, es, heap); Moved(Keep(p) + es, bs)
        case HitPlayer(es, bs) => KeepAllocated(p, es, heap); HitPlayer(Keep(p) + es, bs)
  }

  /** The enemy a pass keeps, put before allocated enemies, leaves them all allocated. */
  lemma KeepAllocated(p: Pass, es: seq<Body>, heap: map<BallId, Body>)
    requires PassWf(p, heap) && CandidatesAllocated(es, heap)
    ensures CandidatesAllocated(Keep(p) + es, heap) && |Keep(p) + es| <= |es| + 1
  {
    var all := Keep(p) + es;
    forall i | 0 <= i < |all|
      ensures forall id | id in all[i].collider.candidates :: id in heap
    {
      if i < |Keep(p)| {
        assert all[i] == p.enemy;
      } else {
        assert all[i] == es[i - |Keep(p)|];
      }
    }
  }

  /**
   * No ball is in play twice after the enemies' passes if none was before, and every ball
   * the enemies destroyed took an enemy with it.
   */
  lemma {:induction false} MoveEnemiesTrades(enemies: seq<Body>, balls: seq<BallId>, heap: map<BallId, Body>, player: Option<Rect>, dt: real)
    requires forall id | id in balls :: id in heap
    requires CandidatesAllocated(enemies, heap)
    requires Distinct(balls)
    ensures var r := MoveEnemies(enemies, balls, heap, player, dt);
            !r.EnemiesCrash? ==> Distinct(r.balls) && |balls| - |r.balls| <= |enemies| - |r.enemies|
    decreases |enemies|
  {
    if |enemies| > 0 {
      assert forall id | id in enemies[0].collider.candidates :: id in heap;
      var d := Travel(enemies[0], dt);
      EnemyPassMeaning(Pass(enemies[0], false, balls), heap, player, d);
      CandidatesAllocatedTail(enemies, heap);
      var pass := EnemyPass(Pass(enemies[0], false, balls), heap, player, d);
      if pass.Settled? {
        var p := pass.pass;
        SettledStep(enemies, balls, heap, player, dt);
        MoveEnemiesTrades(enemies[1..], p.balls, heap, player, dt);
        var tail := MoveEnemies(enemies[1..], p.balls, heap, player, dt);
        if !tail.EnemiesCrash? {
          assert |Keep(p) + tail.enemies| == |Keep(p)| + |tail.enemies|;
        }
      } else if pass.StruckPlayer? {
        assert |Keep(pass.pass) + enemies[1..]| == |Keep(pass.pass)| + |enemies| - 1;
      }
    }
  }

  /** The enemies of `left` before those of an outcome. */
  function Prepend(left: seq<Body>, r: EnemiesEnd): EnemiesEnd
  {
    match r
    case Moved(es, bs) => Moved(left + es, bs)
    case HitPlayer(es, bs) => HitPlayer(left + es, bs)
    case EnemiesCrash(reason) => EnemiesCrash(reason)
  }

  /**
   * Once an enemy strikes the player, the enemies after it are returned as they were:
   * moveEnemies over `front + rest` ends as over `front`, with `rest` untouched.
   */
  lemma {:induction false} HitPlayerLeavesRest(front: seq<Body>, rest: seq<Body>, balls: seq<BallId>, heap: map<BallId, Body>, player: Option<Rect>, dt: real)
    requires forall id | id in balls :: id in heap
    requires CandidatesAllocated(front, heap) && CandidatesAllocated(front + rest, heap)
    requires MoveEnemies(front, balls, heap, player, dt).HitPlayer?
    ensures var r := MoveEnemies(front, balls, heap, player, dt);
            MoveEnemies(front + rest, balls, heap, player, dt) == HitPlayer(r.enemies + rest, r.balls)
    decreases |front|, 1
  {
    var all := front + rest;
    assert all[0] == front[0];
    assert all[1..] == front[1..] + rest;
    assert forall id | id in front[0].collider.candidates :: id in heap;
    var pass := EnemyPass(Pass(front[0], false, balls), heap, player, Travel(front[0], dt));
    if pass.StruckPlayer? {
      assert Keep(pass.pass) + all[1..] == (Keep(pass.pass) + front[1..]) + rest;
    } else {
      HitPlayerLeavesRestAfter(front, rest, balls, heap, player, dt);
    }
  }

  /** HitPlayerLeavesRest when the first enemy's pass settles and a later one strikes. */
  lemma {:induction false} HitPlayerLeavesRestAfter(front: seq<Body>, rest: seq<Body>, balls: seq<BallId>, heap: map<BallId, Body>, player: Option<Rect>, dt: real)
    requires forall id | id in balls :: id in heap
    requires |front| > 0 && CandidatesAllocated(front, heap) && CandidatesAllocated(front + rest, heap)
    requires forall id | id in front[0].collider.candidates :: id in heap
    requires EnemyPass(Pass(front[0], false, balls), heap, player, Travel(front[0], dt)).Settled?
    requires MoveEnemies(front, balls, heap, player, dt).HitPlayer?
    ensures var r := MoveEnemies(front, balls, heap, player, dt);
            MoveEnemies(front + rest, balls, heap, player, dt) == HitPlayer(r.enemies + rest, r.balls)
    decreases |front|, 0
  {
    var all := front + rest;
    assert all[0] == front[0];
    assert all[1..] == front[1..] + rest;
    var pass := EnemyPass(Pass(front[0], false, balls), heap, player, Travel(front[0], dt)).pass;
    var k, b := Keep(pass), pass.balls;
    CandidatesAllocatedTail(front, heap);
    CandidatesAllocatedTail(all, heap);
    var tail := MoveEnemies(front[1..], b, heap, player, dt);
    assert MoveEnemies(front, balls, heap, player, dt) == Prepend(k, tail) by {
      SettledStep(front, balls, heap, player, dt);
    }
    PrependKeepsOutcome(k, tail);
    assert MoveEnemies(all[1..], b, heap, player, dt) == HitPlayer(tail.enemies + rest, tail.balls) by {
      HitPlayerLeavesRest(front[1..], rest, b, heap, player, dt);
    }
    assert MoveEnemies(all, balls, heap, player, dt) == Prepend(k, MoveEnemies(all[1..], b, heap, player, dt)) by {
      SettledStep(all, balls, heap, player, dt);
    }
    PrependHit(k, tail, rest);
  }

  /** Prepending enemies keeps the kind of outcome. */
  lemma PrependKeepsOutcome(k: seq<Body>, r: EnemiesEnd)
    ensures Prepend(k, r).HitPlayer? == r.HitPlayer? && Prepend(k, r).Moved? == r.Moved?
  {
  }

  /** Appending the untouched enemies commutes with prepending the earlier ones. */
  lemma PrependHit(k: seq<Body>, r: EnemiesEnd, rest: seq<Body>)
    requires r.HitPlayer?
    ensures Prepend(k, HitPlayer(r.enemies + rest, r.balls)) == HitPlayer(Prepend(k, r).enemies + rest, Prepend(k, r).balls)
  {
    assert k + (r.enemies + rest) == (k + r.enemies) + rest;
  }

  /** A crash in the loop over `front` is the crash of the loop over `front + rest`. */
  lemma {:induction false} CrashLeavesRest(front: seq<Body>, rest: seq<Body>, balls: seq<BallId>, heap: map<BallId, Body>, player: Option<Rect>, dt: real)
    requires forall id | id in balls :: id in heap
    requires CandidatesAllocated(front, heap) && CandidatesAllocated(front + rest, heap)
    requires MoveEnemies(front, balls, heap, player, dt).EnemiesCrash?
    ensures MoveEnemies(front + rest, balls, heap, player, dt) == MoveEnemies(front, balls, heap, player, dt)
    decreases |front|
  {
    var all := front + rest;
    assert all[0] == front[0];
    assert all[1..] == front[1..] + rest;
    assert forall id | id in front[0].collider.candidates :: id in heap;
    var pass := EnemyPass(Pass(front[0], false, balls), heap, player, Travel(front[0], dt));
    if pass.Settled? {
      CandidatesAllocatedTail(front, heap);
      CandidatesAllocatedTail(all, heap);
      SettledStep(front, balls, heap, player, dt);
      SettledStep(all, balls, heap, player, dt);
      PrependKeepsOutcome(Keep(pass.pass), MoveEnemies(front[1..], pass.pass.balls, heap, player, dt));
      CrashLeavesRest(front[1..], rest, pass.pass.balls, heap, player, dt);
    }
  }

  /**
   * When every enemy of `front` has made its pass, the enemies of `rest` make theirs over
   * the balls `front` left: the loop composes over concatenation.
   */
  lemma {:induction false} MovedThenRest(front: seq<Body>, rest: seq<Body>, balls: seq<BallId>, heap: map<BallId, Body>, player: Option<Rect>, dt: real)
    requires forall id | id in balls :: id in heap
    requires CandidatesAllocated(front, heap) && CandidatesAllocated(rest, heap) && CandidatesAllocated(front + rest, heap)
    requires MoveEnemies(front, balls, heap, player, dt).Moved?
    ensures var r := MoveEnemies(front, balls, heap, player, dt);
            MoveEnemies(front + rest, balls, heap, player, dt) == Prepend(r.enemies, MoveEnemies(rest, r.balls, heap, player, dt))
    decreases |front|, 1
  {
    if |front| == 0 {
      assert front + rest == rest;
      PrependNothing(MoveEnemies(rest, balls, heap, player, dt));
    } else {
      assert forall id | id in front[0].collider.candidates :: id in heap;
      MovedThenRestAfter(front, rest, balls, heap, player, dt);
    }
  }

  /** MovedThenRest for a non-empty front, whose first pass must have settled. */
  lemma {:induction false} MovedThenRestAfter(front: seq<Body>, rest: seq<Body>, balls: seq<BallId>, heap: map<BallId, Body>, player: Option<Rect>, dt: real)
    requires forall id | id in balls :: id in heap
    requires |front| > 0
    requires CandidatesAllocated(front, heap) && CandidatesAllocated(rest, heap) && CandidatesAllocated(front + rest, heap)
    requires forall id | id in front[0].collider.candidates :: id in heap
    requires EnemyPass(Pass(front[0], false, balls), heap, player, Travel(front[0], dt)).Settled?
    requires MoveEnemies(front, balls, heap, player, dt).Moved?
    ensures var r := MoveEnemies(front, balls, heap, player, dt);
            MoveEnemies(front + rest, balls, heap, player, dt) == Prepend(r.enemies, MoveEnemies(rest, r.balls, heap, player, dt))
    decreases |front|, 0
  {
    var all := front + rest;
    assert all[0] == front[0];
    assert all[1..] == front[1..] + rest;
    var pass := EnemyPass(Pass(front[0], false, balls), heap, player, Travel(front[0], dt)).pass;
    var k, b := Keep(pass), pass.balls;
    CandidatesAllocatedTail(front, heap);
    CandidatesAllocatedTail(all, heap);
    var tail := MoveEnemies(front[1..], b, heap, player, dt);
    assert MoveEnemies(front, balls, heap, player, dt) == Prepend(k, tail) by {
      SettledStep(front, balls, heap, player, dt);
    }
    var later := MoveEnemies(rest, tail.balls, heap, player, dt);
    assert MoveEnemies(all[1..], b, heap, player, dt) == Prepend(tail.enemies, later) by {
      MovedThenRest(front[1..], rest, b, heap, player, dt);
    }
    assert MoveEnemies(all, balls, heap, player, dt) == Prepend(k, MoveEnemies(all[1..], b, heap, player, dt)) by {
      SettledStep(all, balls, heap, player, dt);
    }
    PrependTwice(k, tail.enemies, later);
  }

  /** One turn of the loop of moveEnemies whose first pass settles. */
  lemma SettledStep(enemies: seq<Body>, balls: seq<BallId>, heap: map<BallId, Body>, player: Option<Rect>, dt: real)
    requires forall id | id in balls :: id in heap
    requires |enemies| > 0 && CandidatesAllocated(enemies, heap) && CandidatesAllocated(enemies[1..], heap)
    requires forall id | id in enemies[0].collider.candidates :: id in heap
    requires EnemyPass(Pass(enemies[0], false, balls), heap, player, Travel(enemies[0], dt)).Settled?
    ensures var p := EnemyPass(Pass(enemies[0], false, balls), heap, player, Travel(enemies[0], dt)).pass;
            MoveEnemies(enemies, balls, heap, player, dt) == Prepend(Keep(p), MoveEnemies(enemies[1..], p.balls, heap, player, dt))
  {
  }

  /** Prepending no enemies changes nothing. */
  lemma PrependNothing(r: EnemiesEnd)
    ensures Prepend([], r) == r
  {
    match r
    case EnemiesCrash(_) =>
    case HitPlayer(es, _) => assert [] + es == es;
    case Moved(es, _) => assert [] + es == es;
  }

  /** Prepending twice is prepending the concatenation. */
  lemma PrependTwice(a: seq<Body>, b: seq<Body>, r: EnemiesEnd)
    ensures Prepend(a, Prepend(b, r)) == Prepend(a + b, r)
  {
    match r
    case EnemiesCrash(_) =>
    case HitPlayer(es, _) => assert a + (b + es) == (a + b) + es;
    case Moved(es, _) => assert a + (b + es) == (a + b) + es;
  }

  /** Dropping the first enemy keeps the others' candidates allocated. */
  lemma CandidatesAllocatedTail(enemies: seq<Body>, heap: map<BallId, Body>)
    requires |enemies| > 0 && CandidatesAllocated(enemies, heap)
    ensures CandidatesAllocated(enemies[1..], heap)
  {
    assert forall i | 0 <= i < |enemies[1..]| :: enemies[1..][i] == enemies[i + 1];
  }

  // ---------------------------------------------------------------------------
  // calculateNextFrame
  // ---------------------------------------------------------------------------

  /** What the frame reads from outside: the clock, and the draws a pending enemy spawn makes. */
  datatype FrameInput = FrameInput(now: int, draws: EnemyFactory.SpawnDraws)

  /**
   * The pending requests the UI thread posted: spawn one enemy, add one point.  Each is
   * served and cleared.
   */
  function ApplyPending(g: Game, d: Dimensions, lines: EnemyFactory.SpawnLines, draws: EnemyFactory.SpawnDraws)
    : (r: Result<Game, Crash>)
    requires g.allocEnemyPending ==> EnemyFactory.ValidDraws(d, lines, draws)
    ensures r.Failure? <==> g.allocEnemyPending && EnemyFactory.Spawn(d, lines, draws).Failure?
    ensures r.Success? ==> && !r.value.allocEnemyPending && !r.value.incrementScorePending
                           && r.value.score == g.score + (if g.incrementScorePending then 1 else 0)
                           && r.value.enemies == g.enemies
                                                + (if g.allocEnemyPending then [EnemyFactory.Spawn(d, lines, draws).value] else [])
                           && r.value == g.(allocEnemyPending := false, incrementScorePending := false,
                                            score := r.value.score, enemies := r.value.enemies)
  {
    var spawned := if g.allocEnemyPending then AllocEnemy(g, d, lines, draws) else Success(g);
    match spawned
    case Failure(e) => Failure(SpawnFailed(e))
    case Success(g1) =>
      var g2 := g1.(allocEnemyPending := false);
      Success(if g2.incrementScorePending then UpdateScore(g2).(incrementScorePending := false) else g2)
  }

  lemma PendingKeepsWf(g: Game, d: Dimensions, lines: EnemyFactory.SpawnLines, draws: EnemyFactory.SpawnDraws)
    requires Wf(g)
    requires g.allocEnemyPending ==> EnemyFactory.ValidDraws(d, lines, draws)
    ensures ApplyPending(g, d, lines, draws).Success? ==> Wf(ApplyPending(g, d, lines, draws).value)
  {
    if ApplyPending(g, d, lines, draws).Success? {
      var g1 := ApplyPending(g, d, lines, draws).value;
      if g.allocEnemyPending {
        AllocEnemyKeepsWf(g, d, lines, draws);
        WfOfBodies(AllocEnemy(g, d, lines, draws).value, g1);
      } else {
        WfOfBodies(g, g1);
      }
    }
  }

  /** The state after the phase switch, the slot, and whether bodies move this frame. */
  datatype Switched = Switched(g: Game, slot: SavedGame, advance: bool)

  /** The switch on the play state at the top of a frame. */
  function PhaseStep(g: Game, slot: SavedGame): (r: Switched)
    ensures r.advance <==> g.phase == Initializing || g.phase == Playing
    ensures r.g.balls == g.balls && r.g.heap == g.heap && r.g.enemies == g.enemies && r.g.score == g.score
    ensures r.g.allocEnemyPending == g.allocEnemyPending && r.g.incrementScorePending == g.incrementScorePending
    ensures r.slot != slot ==> g.phase == Lost
    ensures g.phase == Lost ==> r.g.phase == Lost && !r.g.animating && r.slot.valid && r.slot.score == g.score
    ensures g.phase != Lost ==> r.g.phase != g.phase || g.phase == Playing
  {
    match g.phase
    case Initializing => Switched(g.(phase := Ready), slot, true)
    case Ready => Switched(SetPauseTime(g.(phase := Playing, message := NoMessage), ReadyPause), slot, false)
    case Lost => Switched(g.(message := GameOverMessage, animating := false), SaveScore(g, slot), false)
    case Playing => Switched(g, slot, true)
  }

  /** Ball motion, then enemy motion; an enemy reaching the player loses the game. */
  function Motion(g: Game, d: Dimensions, dt: real): (r: Result<Game, Crash>)
    requires Wf(g)
    ensures r.Success? ==> Wf(r.value)
    ensures r.Success? ==> r.value.phase == g.phase || r.value.phase == Lost
    ensures CandidatesAllocated(g.enemies, MoveBalls(g.balls, g.heap, d, dt, g.score).heap)
    ensures var moved := MoveBalls(g.balls, g.heap, d, dt, g.score);
            var e := MoveEnemies(g.enemies, moved.balls, moved.heap, g.player, dt);
            && (r.Failure? <==> e.EnemiesCrash?)
            && (r.Success? ==> && r.value.score == moved.score && r.value.heap == moved.heap
                               && r.value.balls == e.balls && r.value.enemies == e.enemies
                               && (r.value.phase == Lost <==> e.HitPlayer? || g.phase == Lost))
    ensures r.Success? ==> r.value == g.(balls := r.value.balls, heap := r.value.heap, score := r.value.score,
                                         enemies := r.value.enemies, phase := r.value.phase)
  {
    var moved := MoveBalls(g.balls, g.heap, d, dt, g.score);
    MoveBallsMeaning(g.balls, g.heap, d, dt, g.score);
    assert CandidatesAllocated(g.enemies, moved.heap);
    match MoveEnemies(g.enemies, moved.balls, moved.heap, g.player, dt)
    case EnemiesCrash(reason) => Failure(reason)
    case Moved(es, bs) =>
      MoveEnemiesTrades(g.enemies, moved.balls, moved.heap, g.player, dt);
      Success(g.(balls := bs, heap := moved.heap, score := moved.score, enemies := es))
    case HitPlayer(es, bs) =>
      MoveEnemiesTrades(g.enemies, moved.balls, moved.heap, g.player, dt);
      Success(g.(balls := bs, heap := moved.heap, score := moved.score, enemies := es, phase := Lost))
  }

  /**
   * calculateNextFrame: the first frame only records the clock.  Later frames serve the
   * pending requests, switch on the play state, move the bodies if the state allows, and
   * record the clock.
   */
  function CalculateNextFrame(g: Game, slot: SavedGame, d: Dimensions, lines: EnemyFactory.SpawnLines, input: FrameInput)
    : (r: Result<(Game, SavedGame), Crash>)
    requires Wf(g)
    requires g.allocEnemyPending ==> EnemyFactory.ValidDraws(d, lines, input.draws)
    ensures r.Success? ==> Wf(r.value.0) && r.value.0.prevFrameNsec == input.now
  {
    if g.prevFrameNsec == 0 then Success((g.(prevFrameNsec := input.now), slot))
    else
      match ApplyPending(g, d, lines, input.draws)
      case Failure(c) => Failure(c)
      case Success(g1) =>
        PendingKeepsWf(g, d, lines, input.draws);
        Advance(g1, slot, d, FrameDelta(g.prevFrameNsec, input.now), input.now)
  }

  /**
   * The part of a later frame after the pending requests: the switch on the play state,
   * the motion it allows, and the clock reading.  Neither the pending flags nor the
   * player change.
   */
  function Advance(g: Game, slot: SavedGame, d: Dimensions, dt: real, now: int): (r: Result<(Game, SavedGame), Crash>)
    requires Wf(g)
    ensures r.Success? ==> Wf(r.value.0) && r.value.0.prevFrameNsec == now
    ensures r.Success? ==> && r.value.0.allocEnemyPending == g.allocEnemyPending
                           && r.value.0.incrementScorePending == g.incrementScorePending
  {
    var s := PhaseStep(g, slot);
    WfOfBodies(g, s.g);
    if s.advance then
      match Motion(s.g, d, dt)
      case Failure(c) => Failure(c)
      case Success(g2) =>
        WfOfBodies(g2, g2.(prevFrameNsec := now));
        Success((g2.(prevFrameNsec := now), s.slot))
    else
      WfOfBodies(s.g, s.g.(prevFrameNsec := now));
      Success((s.g.(prevFrameNsec := now), s.slot))
  }

  /** The first frame, with no previous clock reading, only records the clock. */
  lemma FirstFrameRecordsClock(g: Game, slot: SavedGame, d: Dimensions, lines: EnemyFactory.SpawnLines, input: FrameInput)
    requires Wf(g) && g.prevFrameNsec == 0
    requires g.allocEnemyPending ==> EnemyFactory.ValidDraws(d, lines, input.draws)
    ensures CalculateNextFrame(g, slot, d, lines, input) == Success((g.(prevFrameNsec := input.now), slot))
  {
  }

  /**
   * After surfaceChanged the next frame moves nothing and serves no request: it only
   * records the clock, whatever the play state.
   */
  lemma SurfaceChangedSkipsFrame(g: Game, slot: SavedGame, d: Dimensions, lines: EnemyFactory.SpawnLines, input: FrameInput)
    requires Wf(g)
    requires g.allocEnemyPending ==> EnemyFactory.ValidDraws(d, lines, input.draws)
    ensures Wf(SurfaceChanged(g))
    ensures CalculateNextFrame(SurfaceChanged(g), slot, d, lines, input)
            == Success((g.(prevFrameNsec := input.now, animating := true, pause := 1.5), slot))
  {
    WfOfBodies(g, SurfaceChanged(g));
  }

  /**
   * Any later frame serves both pending requests whatever the play state; it crashes
   * only if the pending spawn fails or an enemy pass crashes.
   */
  lemma PendingRequestsServed(g: Game, slot: SavedGame, d: Dimensions, lines: EnemyFactory.SpawnLines, input: FrameInput)
    requires Wf(g) && g.prevFrameNsec != 0
    requires g.allocEnemyPending ==> EnemyFactory.ValidDraws(d, lines, input.draws)
    ensures var r := CalculateNextFrame(g, slot, d, lines, input);
            r.Success? ==> !r.value.0.allocEnemyPending && !r.value.0.incrementScorePending
    ensures g.allocEnemyPending && EnemyFactory.Spawn(d, lines, input.draws).Failure? ==>
              CalculateNextFrame(g, slot, d, lines, input)
              == Failure(SpawnFailed(EnemyFactory.Spawn(d, lines, input.draws).error))
  {
  }

  /**
   * The ready state lasts exactly one frame: it becomes playing with no message and a
   * half-second pause, and nothing moves.
   */
  lemma ReadyLastsOneFrame(g: Game, slot: SavedGame, d: Dimensions, lines: EnemyFactory.SpawnLines, input: FrameInput)
    requires Wf(g) && g.prevFrameNsec != 0 && g.phase == Ready
    requires g.allocEnemyPending ==> EnemyFactory.ValidDraws(d, lines, input.draws)
    requires ApplyPending(g, d, lines, input.draws).Success?
    ensures var g1 := ApplyPending(g, d, lines, input.draws).value;
            CalculateNextFrame(g, slot, d, lines, input)
            == Success((g1.(phase := Playing, message := NoMessage, pause := ReadyPause, prevFrameNsec := input.now), slot))
  {
  }

  /**
   * The initialising state becomes ready and the bodies move in that same frame; the game
   * is lost instead exactly when an enemy strikes the player.
   */
  lemma InitializingBecomesReady(g: Game, slot: SavedGame, d: Dimensions, lines: EnemyFactory.SpawnLines, input: FrameInput)
    requires Wf(g) && g.prevFrameNsec != 0 && g.phase == Initializing
    requires g.allocEnemyPending ==> EnemyFactory.ValidDraws(d, lines, input.draws)
    requires ApplyPending(g, d, lines, input.draws).Success?
    requires CalculateNextFrame(g, slot, d, lines, input).Success?
    ensures var g1 := ApplyPending(g, d, lines, input.draws).value;
            var dt := FrameDelta(g.prevFrameNsec, input.now);
            var moved := MoveBalls(g1.balls, g1.heap, d, dt, g1.score);
            var r := CalculateNextFrame(g, slot, d, lines, input).value;
            var e := MoveEnemies(g1.enemies, moved.balls, moved.heap, g1.player, dt);
            && r.1 == slot
            && r.0.score == moved.score && r.0.heap == moved.heap
            && r.0.balls == e.balls && r.0.enemies == e.enemies
            && (r.0.phase == Lost <==> e.HitPlayer?)
            && (r.0.phase != Lost ==> r.0.phase == Ready)
  {
    var g1 := ApplyPending(g, d, lines, input.draws).value;
    PendingKeepsWf(g, d, lines, input.draws);
    WfOfBodies(g1, g1.(phase := Ready));
  }

  /** A playing game keeps playing until an enemy strikes the player. */
  lemma PlayingContinues(g: Game, slot: SavedGame, d: Dimensions, lines: EnemyFactory.SpawnLines, input: FrameInput)
    requires Wf(g) && g.prevFrameNsec != 0 && g.phase == Playing
    requires g.allocEnemyPending ==> EnemyFactory.ValidDraws(d, lines, input.draws)
    requires ApplyPending(g, d, lines, input.draws).Success?
    requires CalculateNextFrame(g, slot, d, lines, input).Success?
    ensures var g1 := ApplyPending(g, d, lines, input.draws).value;
            var dt := FrameDelta(g.prevFrameNsec, input.now);
            var moved := MoveBalls(g1.balls, g1.heap, d, dt, g1.score);
            var r := CalculateNextFrame(g, slot, d, lines, input).value;
            var e := MoveEnemies(g1.enemies, moved.balls, moved.heap, g1.player, dt);
            && r.1 == slot
            && r.0.score == moved.score && r.0.heap == moved.heap
            && r.0.balls == e.balls && r.0.enemies == e.enemies
            && (r.0.phase == Lost <==> e.HitPlayer?)
            && (r.0.phase != Lost ==> r.0.phase == Playing)
  {
    PendingKeepsWf(g, d, lines, input.draws);
  }

  /**
   * A lost game stays lost: it shows the game-over message, stops animating, moves
   * nothing, and writes its score to the slot.
   */
  lemma LostIsFinal(g: Game, slot: SavedGame, d: Dimensions, lines: EnemyFactory.SpawnLines, input: FrameInput)
    requires Wf(g) && g.prevFrameNsec != 0 && g.phase == Lost
    requires g.allocEnemyPending ==> EnemyFactory.ValidDraws(d, lines, input.draws)
    requires ApplyPending(g, d, lines, input.draws).Success?
    ensures var g1 := ApplyPending(g, d, lines, input.draws).value;
            var r := CalculateNextFrame(g, slot, d, lines, input);
            && r == Success((g1.(message := GameOverMessage, animating := false, prevFrameNsec := input.now),
                             SaveScore(g1, slot)))
            && r.value.0.phase == Lost
            && r.value.1.valid && r.value.1.score == g1.score
  {
  }

  /** The closed form of the penalty never goes below zero from a score that is not negative. */
  lemma PenalizeTimesNonNegative(score: int, k: nat)
    requires score >= 0
    ensures 0 <= PenalizeTimes(score, k) <= score
  {
  }

  /** A score that is not negative stays so through a frame. */
  lemma ScoreStaysNonNegative(g: Game, slot: SavedGame, d: Dimensions, lines: EnemyFactory.SpawnLines, input: FrameInput)
    requires Wf(g) && g.score >= 0
    requires g.allocEnemyPending ==> EnemyFactory.ValidDraws(d, lines, input.draws)
    ensures var r := CalculateNextFrame(g, slot, d, lines, input);
            r.Success? ==> r.value.0.score >= 0
  {
    if g.prevFrameNsec != 0 && ApplyPending(g, d, lines, input.draws).Success? {
      var g1 := ApplyPending(g, d, lines, input.draws).value;
      PendingKeepsWf(g, d, lines, input.draws);
      AdvanceKeepsScoreNonNegative(g1, slot, d, FrameDelta(g.prevFrameNsec, input.now), input.now);
    }
  }

  /** The part of the frame after the pending requests keeps a score that is not negative. */
  lemma AdvanceKeepsScoreNonNegative(g: Game, slot: SavedGame, d: Dimensions, dt: real, now: int)
    requires Wf(g) && g.score >= 0
    ensures var r := Advance(g, slot, d, dt, now);
            r.Success? ==> r.value.0.score >= 0
  {
    var s := PhaseStep(g, slot);
    WfOfBodies(g, s.g);
    var moved := MoveBalls(s.g.balls, s.g.heap, d, dt, s.g.score);
    PenalizeTimesNonNegative(s.g.score, |s.g.balls| - |moved.balls|);
  }
}
