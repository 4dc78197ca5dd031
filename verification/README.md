# Aeonian simulation core in Dafny

Aeonian is an Android arcade game. Enemies enter the arena from off-screen and head for
the player at its centre. The player touches the screen to launch balls from the centre;
a ball that meets an enemy destroys it and is destroyed with it, and an enemy that reaches
the player ends the game. This project models the simulation core of the game and proves
properties of it:

- **BaseRect's collision engine** (`baserect.dfy`, module `BaseRect`): the coarse
  box-overlap test, the sub-stepped circle-versus-rectangle sweep of `findFirstCollision`
  (folding into the first quadrant, face classification, axis-aligned push-back), the
  single-object `collidedWith`, and the per-object candidate list and hit fields.
- **The moving bodies** (`bodies.dfy`, module `Bodies`): Enemy's speed, direction, radius
  and colour accessors, shared by the ball.
- **The spawn policies** (`enemyfactory.dfy`, `ballfactory.dfy`): an enemy enters from one
  of four off-screen edges, aimed at the centre, at a random speed; a ball leaves the
  centre, aimed at the touched point.
- **GameState** (`arena.dfy`, `gamestate.dfy`, `frame.dfy`):
  - the arena constants of `setGameDimensions`;
  - the saved-game slot (reset, save, saveScore, restore, invalidate, the two queries);
  - the allocation calls;
  - the frame driver `calculateNextFrame` with its two passes `moveBalls` and `moveEnemies`.

Supporting files: `wrappers.dfy` (`Option`, `Result`) and `geometry.dfy` (vectors,
rectangles, sign, truncation, products, normalisation).

Modelling choices:

- Coordinates are `real`. `Math.signum` is a three-valued `Sign`.
- `Math.sqrt` is an input `m` with `m >= 0` and `m*m == dx*dx + dy*dy` (`IsRoot`).
- The clock reading and every `Random.nextInt` draw are inputs, constrained to the range
  `nextInt` promises (`FrameInput`, `SpawnDraws`).
- The mutable objects become immutable records, and every mutator becomes a function
  returning the new record. The saved-game slot is a value passed in and returned.
- Balls are referred to by identity. An enemy's list of possible collisions holds
  references to balls, and the source clears that list only on a hit. So stale references
  to balls that have already left play persist across frames. The model keeps every ball
  ever allocated in a heap map (`Game.heap`); `Game.balls` is the ordered list in play.
- Exceptions the source can throw in the modelled paths become error outcomes:
  - `setSpeed` on a speed that is not positive;
  - `nextInt` asked for an empty range;
  - a second `iter.remove()` on an enemy that a ball already removed in the same frame
    (`Frame.Crash.EnemyRemovedTwice`);
  - an enemy moving before `allocPlayer` ran, which dereferences a null player
    (`Frame.Crash.NoPlayer`).
- A direction computed from the zero vector is a division by zero in the source, giving
  NaN components. The model refuses it: `NoDirection` for an enemy spawned on the centre,
  `NoBallDirection` for a touch exactly on the ball start point.

## Model

| member | source | states |
|---|---|---|
| Geometry.SetPosition | app/src/main/java/com/whatizthis/aeonian/objects/BaseRect.java:170-174 | setPosition replaces the centre and keeps the scale |
| Geometry.SetScale | app/src/main/java/com/whatizthis/aeonian/objects/BaseRect.java:193-197 | setScale replaces the scale and keeps the centre |
| Geometry.Trunc | app/src/main/java/com/whatizthis/aeonian/game/GameState.java:235-236 | the `(int)` cast truncates toward zero: the result is no larger in magnitude than the argument, within one of it, and has its sign |
| Geometry.Normalize | app/src/main/java/com/whatizthis/aeonian/objects/Enemy.java:137-141 | dividing by the length gives no vector exactly when the input is the zero vector |
| Geometry.NormalizeMeaning | app/src/main/java/com/whatizthis/aeonian/objects/Enemy.java:137-141 | the normalised vector has length one, keeps each component's sign, is parallel to the input and has a positive dot product with it |
| Geometry.NormalizeScaleInvariant | app/src/main/java/com/whatizthis/aeonian/objects/Enemy.java:137-141 | normalising k·(dx, dy) for k > 0 gives the same vector as normalising (dx, dy) |
| BaseRect.CheckCoarseCollision | app/src/main/java/com/whatizthis/aeonian/objects/BaseRect.java:255-277 | true iff [x−xs, x+xs] overlaps [left, right] and [y−ys, y+ys] overlaps [bottom, top], each in an interval of positive length (the full scale is the half-extent) |
| BaseRect.CoarseMeansSharedInterior | app/src/main/java/com/whatizthis/aeonian/objects/BaseRect.java:255-277 | the coarse test passes exactly when some point lies strictly inside both the target's full-scale box and the query box |
| BaseRect.SweptBox | app/src/main/java/com/whatizthis/aeonian/game/GameState.java:837-850 | shrunk by the radius, the box holds both the current and the final centre and each of its edges passes through one of them: the smallest box around the two centres, widened by the radius |
| BaseRect.SweptBoxHoldsPath | app/src/main/java/com/whatizthis/aeonian/game/GameState.java:837-850 | every centre on the segment from the current to the final centre lies in the box shrunk by the radius, so the circle stays inside the box all along its path |
| BaseRect.CornerFace | app/src/main/java/com/whatizthis/aeonian/objects/BaseRect.java:476-502 | both signs of the direction equal the signs of (rect − circle): sharp corner; only X: vertical; only Y: horizontal; neither: sharp corner |
| BaseRect.Probe | app/src/main/java/com/whatizthis/aeonian/objects/BaseRect.java:420-423 | the axis chosen for the push-back is always horizontal or vertical, so the zero-correction fallback never runs |
| BaseRect.ProbeBounds | app/src/main/java/com/whatizthis/aeonian/objects/BaseRect.java:398-432 | a reported contact has the folded centre within scale/2 + r on both axes, and in the corner region the corner is within r of the centre |
| BaseRect.ProbeFaces | app/src/main/java/com/whatizthis/aeonian/objects/BaseRect.java:420-516 | within half the width on X the face is horizontal; otherwise within half the height on Y it is vertical; otherwise the corner rule decides the face, and the adjusted axis is horizontal exactly when the X gap is smaller than the Y gap |
| BaseRect.ProbePushBack | app/src/main/java/com/whatizthis/aeonian/objects/BaseRect.java:562-582 | the push-back is along one axis only, its magnitude is the overlap and is never negative, its sign points away from the rectangle centre, and after it the centre is exactly scale/2 + r from the rectangle centre on that axis |
| BaseRect.ProbeIffTouches | app/src/main/java/com/whatizthis/aeonian/objects/BaseRect.java:398-432 | for r ≥ 0 a probe reports contact exactly when the closest point of the closed rectangle (half-extents scale/2) is within r of the circle centre |
| BaseRect.FirstContact | app/src/main/java/com/whatizthis/aeonian/objects/BaseRect.java:390-404 | at one position, no contact iff no candidate is touched; otherwise the first candidate in list order whose probe succeeds |
| BaseRect.ScheduleFrom | app/src/main/java/com/whatizthis/aeonian/objects/BaseRect.java:377-389 | the probe distances rise strictly in strides of exactly 2.0, the last is the full distance or a whole number of strides, none exceeds the distance, the leftover after the last is below 0.001, and there is none at all iff less than 0.001 remains |
| BaseRect.SweepSteps | app/src/main/java/com/whatizthis/aeonian/objects/BaseRect.java:377-595 | a hit is recorded at one of the scheduled distances, against one of the candidates |
| BaseRect.SweepStepsMeaning | app/src/main/java/com/whatizthis/aeonian/objects/BaseRect.java:377-595 | over a rising schedule the sweep misses iff no scheduled position touches any candidate; a hit is the first candidate touched at the earliest position where one is touched |
| BaseRect.SweepCandidates | app/src/main/java/com/whatizthis/aeonian/objects/BaseRect.java:372-598 | a distance below 0.001 (zero or negative included) gives no hit; a hit distance lies in (0, distance] |
| BaseRect.SweepCandidatesMeaning | app/src/main/java/com/whatizthis/aeonian/objects/BaseRect.java:377-598 | the sweep's result over the whole schedule: miss iff no scheduled position touches a candidate, otherwise the earliest position and the first candidate there |
| BaseRect.SweepAdvances | app/src/main/java/com/whatizthis/aeonian/objects/BaseRect.java:379-389 | a hit is recorded at the full distance or at least one 2.0 stride along, so the caller's remaining distance shrinks |
| BaseRect.ScanCandidates | app/src/main/java/com/whatizthis/aeonian/objects/BaseRect.java:390-404 | the loop over the candidate list returns what FirstContact specifies |
| BaseRect.FindFirstCollisionLoop | app/src/main/java/com/whatizthis/aeonian/objects/BaseRect.java:377-598 | the imperative stepping loop computes the same hit as the sweep over the schedule |
| BaseRect.SweepSingleAgrees | app/src/main/java/com/whatizthis/aeonian/objects/BaseRect.java:697-882 | collidedWith's copy of the loop finds what the sweep over the one-element list [o] finds |
| BaseRect.SweepSingleFrom | app/src/main/java/com/whatizthis/aeonian/objects/BaseRect.java:697-872 | a hit lies strictly beyond the distance already travelled and within the full distance |
| BaseRect.AddCollision | app/src/main/java/com/whatizthis/aeonian/objects/BaseRect.java:202-204 | appends to the list of possible collisions and leaves the hit fields alone |
| BaseRect.FindFirstCollision | app/src/main/java/com/whatizthis/aeonian/objects/BaseRect.java:588-598 | a miss returns null and changes nothing; a hit empties the list, records the sweep's face, distance and push-back, and returns the struck candidate |
| BaseRect.CollidedWith | app/src/main/java/com/whatizthis/aeonian/objects/BaseRect.java:873-881 | false leaves the object unchanged; true empties the list and records a hit distance in (0, distance] |
| BaseRect.CollidedWithIsFindFirstOnOne | app/src/main/java/com/whatizthis/aeonian/objects/BaseRect.java:624-882 | collidedWith(o) returns true iff findFirstCollision with the list [o] returns o, and it then records the same face, distance and push-back |
| BaseRect.CoarseNeverMisses | app/src/main/java/com/whatizthis/aeonian/objects/BaseRect.java:259-262 | if the circle touches a rectangle anywhere along its path, the coarse test on the swept box passes, because the full scale covers the half-scale fine test |
| BaseRect.CoarseRejectionIsSafe | app/src/main/java/com/whatizthis/aeonian/objects/BaseRect.java:255-277 | a rectangle the coarse test rejects can never be struck by the sweep |
| Bodies.SetSpeed | app/src/main/java/com/whatizthis/aeonian/objects/Enemy.java:153-158 | a speed that is not positive is an error and changes nothing; a positive speed is stored and nothing else changes |
| Bodies.Radius | app/src/main/java/com/whatizthis/aeonian/objects/Enemy.java:206-209 | the radius is half the horizontal scale, and lies between zero and the scale when the scale is not negative |
| Bodies.SetColor | app/src/main/java/com/whatizthis/aeonian/objects/Enemy.java:98-104 | the colour becomes (r, g, b, 1.0) and nothing else changes |
| Bodies.SetDirection | app/src/main/java/com/whatizthis/aeonian/objects/Enemy.java:137-141 | no direction iff the input is the zero vector; otherwise a unit vector with the input's signs, parallel to and pointing along the input, with position, scale, speed and colour unchanged |
| Bodies.SetDirectionScaleInvariant | app/src/main/java/com/whatizthis/aeonian/objects/Enemy.java:137-141 | setDirection(k·dx, k·dy) for k > 0 stores the same direction as setDirection(dx, dy) |
| Bodies.MoveTo | app/src/main/java/com/whatizthis/aeonian/objects/BaseRect.java:170-174 | moving a body changes its centre only |
| Bodies.Resize | app/src/main/java/com/whatizthis/aeonian/objects/BaseRect.java:193-197 | resizing a body changes its scale only |
| Arena.SetGameDimensions | app/src/main/java/com/whatizthis/aeonian/game/GameState.java:225-241 | the centre and ball start are half the width and height, the diameters are 2.5% and 7.5% of the width truncated, and the off-screen lines lie 1.414 enemy diameters outside the arena |
| Arena.DimensionsBounds | app/src/main/java/com/whatizthis/aeonian/game/GameState.java:235-240 | for a non-negative width the diameters are whole, non-negative and within one of their share of the width, and the off-screen lines lie on or outside the edges |
| EnemyFactory.RandInRange | app/src/main/java/com/whatizthis/aeonian/factories/EnemyFactory.java:58-60 | with a draw in [0, n), the value lies in [min, max]; an empty range is an error |
| EnemyFactory.RandInRangeOnto | app/src/main/java/com/whatizthis/aeonian/factories/EnemyFactory.java:58-60 | every value of a non-empty range comes from exactly one draw |
| EnemyFactory.SpawnPoint | app/src/main/java/com/whatizthis/aeonian/factories/EnemyFactory.java:20-47 | regions 0 and 2 fix y to the top or bottom line and draw x from the truncated horizontal range; regions 1 and 3 fix x to the left or right line and draw y from the vertical range; no point iff the range is empty |
| EnemyFactory.Spawn | app/src/main/java/com/whatizthis/aeonian/factories/EnemyFactory.java:23-56 | fails iff the range is empty or the point is the centre; otherwise the speed is 400 plus the drawn value, the scale is one enemy diameter square at the spawn point, the colour is (1, 0, 1, 1), the candidate list is empty, and the direction is a unit vector parallel to the centre-ward vector and pointing the same way, which is its normalisation |
| EnemyFactory.RangesNonEmpty | app/src/main/java/com/whatizthis/aeonian/factories/EnemyFactory.java:20-21 | with the arena from setGameDimensions every coordinate range is non-empty |
| EnemyFactory.SpawnSucceeds | app/src/main/java/com/whatizthis/aeonian/factories/EnemyFactory.java:23-56 | with that arena and spawn lines beyond the centre on every side, a spawn always yields an enemy (setSpeed never throws, no division by zero) |
| BallFactory.DiameterIsDefault | app/src/main/java/com/whatizthis/aeonian/factories/BallFactory.java:14-20 | with multiplier 1.0 the truncated diameter is the default ball diameter |
| BallFactory.Spawn | app/src/main/java/com/whatizthis/aeonian/factories/BallFactory.java:17-25 | no ball iff the waypoint is the start point; otherwise at the start point, square scale of the diameter, speed 2000, a unit direction parallel to and pointing at the waypoint, fresh colour and collision state |
| BallFactory.SpawnAlongRay | app/src/main/java/com/whatizthis/aeonian/factories/BallFactory.java:17-25 | every waypoint on the same ray from the start point launches the identical ball, so the spawn depends on nothing but the direction |
| GameState.NewGameWf | app/src/main/java/com/whatizthis/aeonian/game/GameState.java:40-51 | the initial game satisfies the reference invariant (balls and candidates allocated, no ball in play twice) |
| GameState.Reset | app/src/main/java/com/whatizthis/aeonian/game/GameState.java:247-263 | phase initialising, animating, no message, clock and pause zero, lives = maxLives, score 0, nothing else changes |
| GameState.Save | app/src/main/java/com/whatizthis/aeonian/game/GameState.java:295-301 | the slot becomes valid and holds the game's phase, message, lives and score |
| GameState.SaveScore | app/src/main/java/com/whatizthis/aeonian/game/GameState.java:268-275 | only the score and the validity of the slot change |
| GameState.Restore | app/src/main/java/com/whatizthis/aeonian/game/GameState.java:313-331 | returns true iff the slot was valid; a valid slot gives back its phase, message, lives and score and nothing else; an invalid one resets the game and saves it |
| GameState.Invalidate | app/src/main/java/com/whatizthis/aeonian/game/GameState.java:365-369 | the slot becomes invalid and keeps its contents |
| GameState.CanResumeFromSave | app/src/main/java/com/whatizthis/aeonian/game/GameState.java:377-385 | a resumable slot is valid and never also reports a final score; every valid slot holding a ready or playing game resumes |
| GameState.FinalScore | app/src/main/java/com/whatizthis/aeonian/game/GameState.java:397-405 | a score other than −1 comes from a valid slot holding a lost game and is its score; an invalid slot reports −1 |
| GameState.SaveRestoreRoundTrip | app/src/main/java/com/whatizthis/aeonian/game/GameState.java:280-331 | save then restore reproduces phase, message, lives and score and returns true |
| GameState.RestoreIdempotent | app/src/main/java/com/whatizthis/aeonian/game/GameState.java:313-331 | a second restore yields the same game and slot as the first |
| GameState.RestoreInvalidSlot | app/src/main/java/com/whatizthis/aeonian/game/GameState.java:247-263 | on an invalid slot restore returns false, with phase initialising, score 0, lives = maxLives and no message, and leaves a slot that neither resumes nor reports a final score |
| GameState.InvalidateClearsQueries | app/src/main/java/com/whatizthis/aeonian/game/GameState.java:365-405 | after invalidating, the game cannot resume and the final score is −1 |
| GameState.SaveThenCanResume | app/src/main/java/com/whatizthis/aeonian/game/GameState.java:377-385 | after a save, canResumeFromSave holds iff the phase saved is ready or playing |
| GameState.SaveScoreThenFinalScore | app/src/main/java/com/whatizthis/aeonian/game/GameState.java:397-405 | getFinalScore gives the saved score iff the slot is valid and lost, and −1 otherwise |
| GameState.UpdateScore | app/src/main/java/com/whatizthis/aeonian/game/GameState.java:215-217 | the score grows by one and nothing else changes |
| GameState.SetPauseTime | app/src/main/java/com/whatizthis/aeonian/game/GameState.java:668-670 | only the pause changes |
| GameState.SurfaceChanged | app/src/main/java/com/whatizthis/aeonian/game/GameState.java:338-351 | the previous clock reading is forgotten, animation is on and the pause is 1.5 s; nothing else changes |
| GameState.AllocPlayer | app/src/main/java/com/whatizthis/aeonian/game/GameState.java:417-423 | the player is a square of side width/11 at the arena centre, and nothing else changes |
| GameState.AllocEnemy | app/src/main/java/com/whatizthis/aeonian/game/GameState.java:435-437 | fails iff the spawn fails; otherwise appends exactly the spawned enemy |
| GameState.AllocBall | app/src/main/java/com/whatizthis/aeonian/game/GameState.java:451-453 | fails iff the ball has no direction; otherwise appends a new ball identity, bound to the spawned ball |
| GameState.AllocBallKeepsWf | app/src/main/java/com/whatizthis/aeonian/game/GameState.java:451-453 | allocating a ball keeps the invariant |
| GameState.AllocEnemyKeepsWf | app/src/main/java/com/whatizthis/aeonian/game/GameState.java:435-437 | allocating an enemy keeps the invariant |
| Frame.FrameDelta | app/src/main/java/com/whatizthis/aeonian/game/GameState.java:715-721 | the step never exceeds half a second, and is positive exactly when the clock has advanced |
| Frame.FrameDeltaCapped | app/src/main/java/com/whatizthis/aeonian/game/GameState.java:715-721 | up to half a second of clock is simulated as it is; anything longer counts as exactly half a second |
| Frame.IsOutOfBounds | app/src/main/java/com/whatizthis/aeonian/game/GameState.java:946-948 | a centre inside the arena is never out; a centre more than a radius left of or below the arena is |
| Frame.OutOfBoundsMeaning | app/src/main/java/com/whatizthis/aeonian/game/GameState.java:946-948 | for an arena of non-negative size, a ball is out of bounds iff the closed square of half-side r around its centre shares no point with the closed arena |
| Frame.Penalize | app/src/main/java/com/whatizthis/aeonian/game/GameState.java:924 | the score after a lost ball is ten less, or zero if it was below ten; never negative |
| Frame.PenalizeStep | app/src/main/java/com/whatizthis/aeonian/game/GameState.java:924 | the closed form for k + 1 penalties is one penalty followed by k |
| Frame.PenalizeTimesNonNegative | app/src/main/java/com/whatizthis/aeonian/game/GameState.java:924 | from a score that is not negative, any number of penalties leaves a score between 0 and the start |
| Frame.MoveBall | app/src/main/java/com/whatizthis/aeonian/game/GameState.java:929-940 | a ball with distance to cover moves to exactly cur + dir·speed·dt; otherwise it stays |
| Frame.MoveBalls | app/src/main/java/com/whatizthis/aeonian/game/GameState.java:916-944 | no ball identity is created or forgotten, the survivors are among the balls in play, and the score takes one penalty per dropped ball |
| Frame.MoveBallsMeaning | app/src/main/java/com/whatizthis/aeonian/game/GameState.java:920-941 | a ball stays iff it is in bounds at the start of the frame; the survivors are distinct, each has moved, and every other ball is unchanged |
| Frame.Rects | app/src/main/java/com/whatizthis/aeonian/game/GameState.java:855-860 | the rectangles of the referenced balls, one per reference, in order |
| Frame.CoarseMatches | app/src/main/java/com/whatizthis/aeonian/game/GameState.java:855-860 | a ball in play is added to the candidates iff its coarse test against the swept box passes |
| Frame.RemoveBall | app/src/main/java/com/whatizthis/aeonian/game/GameState.java:896 | List.remove drops one ball if it is in play and otherwise changes nothing; on a list without repeats it drops exactly that ball |
| Frame.PassStep | app/src/main/java/com/whatizthis/aeonian/game/GameState.java:822-904 | one turn of the inner loop. A turn that ends the pass leaves the enemy's place in the list and the balls alone, and a settled turn with distance left ends at cur + dir·distance, keeping the balls the coarse test added to the possible collisions and the old hit fields. A ball hit happens only to an enemy still in the list: it removes the enemy and exactly that ball, leaves the enemy where it stood with its list cleared, and hands on distance − traveled, with 0 < traveled ≤ distance. A strike needs a player and distance left; a crash needs a missing player or an enemy already removed |
| Frame.EnemyPass | app/src/main/java/com/whatizthis/aeonian/game/GameState.java:819-905 | a pass keeps every reference allocated and only drops balls from the list; it strikes only an existing player, with distance left; no distance means no change |
| Frame.EnemyPassMeaning | app/src/main/java/com/whatizthis/aeonian/game/GameState.java:868-904 | the enemy keeps its direction, speed, colour and size; it is removed at most once and takes at most one ball with it, and no ball leaves unless the enemy does; with no hit it ends at cur + dir·distance |
| Frame.StrikesPlayerIff | app/src/main/java/com/whatizthis/aeonian/game/GameState.java:862-866 | an enemy still in the list strikes the player iff, on its first step, the player's coarse test on the swept box and collidedWith both succeed |
| Frame.HitRemovesEnemy | app/src/main/java/com/whatizthis/aeonian/game/GameState.java:868-898 | when the fine sweep strikes ball `id` and the player is not struck, the turn removes the enemy and `id`, leaves the enemy unmoved with its list cleared and the hit fields recorded, and hands on distance − traveled; the pass ends with the enemy out of the list and exactly `id` removed from the balls, unless a second ball strikes the removed enemy (the crash) |
| Frame.HitContinues | app/src/main/java/com/whatizthis/aeonian/game/GameState.java:821-904 | after a ball hit the pass is the pass of the unmoved, removed enemy on the distance left; if it settles, it ends that distance along its direction from where the turn started, still removed and with the hit ball gone |
| Frame.RemovedEnemyLastTurn | app/src/main/java/com/whatizthis/aeonian/game/GameState.java:821-904 | a removed enemy with distance left strikes the player iff the coarse test and collidedWith succeed; otherwise it crashes iff its coarse test found balls and the fine sweep strikes one; otherwise it settles at cur + dir·distance with the balls unchanged |
| Frame.MoveEnemies | app/src/main/java/com/whatizthis/aeonian/game/GameState.java:812-909 | no enemy is created, candidates stay allocated, no ball enters play, and the player can be struck only if it exists |
| Frame.MoveEnemiesTrades | app/src/main/java/com/whatizthis/aeonian/game/GameState.java:868-899 | no ball is in play twice afterwards, and no more balls are destroyed than enemies |
| Frame.HitPlayerLeavesRest | app/src/main/java/com/whatizthis/aeonian/game/GameState.java:863-866 | once an enemy strikes the player the loop stops: the enemies after it come back exactly as they were |
| Frame.CrashLeavesRest | app/src/main/java/com/whatizthis/aeonian/game/GameState.java:894-896 | a crash in an earlier enemy's pass is the outcome of the whole loop |
| Frame.MovedThenRest | app/src/main/java/com/whatizthis/aeonian/game/GameState.java:816-906 | the loop over a concatenation is the loop over the front followed by the loop over the rest, on the balls the front left |
| Frame.ApplyPending | app/src/main/java/com/whatizthis/aeonian/game/GameState.java:684-692 | fails iff a pending spawn fails; otherwise both flags are cleared, the score grows by one iff a point was pending, exactly one enemy is appended iff one was pending, and nothing else changes |
| Frame.PendingKeepsWf | app/src/main/java/com/whatizthis/aeonian/game/GameState.java:684-692 | serving the pending requests keeps the invariant |
| Frame.Motion | app/src/main/java/com/whatizthis/aeonian/game/GameState.java:775-796 | fails iff an enemy pass crashes; otherwise the score and heap are the ball pass's, the balls and enemies are the enemy pass's, the phase becomes lost iff an enemy strikes the player, the invariant holds, and nothing else changes |
| Frame.CalculateNextFrame | app/src/main/java/com/whatizthis/aeonian/game/GameState.java:676-810 | a frame that completes keeps the invariant and records the clock reading |
| Frame.Advance | app/src/main/java/com/whatizthis/aeonian/game/GameState.java:745-809 | after the pending requests, a frame that completes keeps the invariant, records the clock reading and leaves both pending flags as they were |
| Frame.PhaseStep | app/src/main/java/com/whatizthis/aeonian/game/GameState.java:748-773 | bodies move iff the game is initialising or playing; the slot changes only for a lost game, which stays lost, stops animating and saves its score; initialising and ready change phase; bodies, score and pending flags are untouched |
| Frame.FirstFrameRecordsClock | app/src/main/java/com/whatizthis/aeonian/game/GameState.java:678-682 | with no previous clock reading the frame only records the clock; phase, score, flags, bodies and slot are unchanged |
| Frame.SurfaceChangedSkipsFrame | app/src/main/java/com/whatizthis/aeonian/game/GameState.java:338-351 | the frame after surfaceChanged only records the clock, whatever the play state: nothing moves and no request is served |
| Frame.PendingRequestsServed | app/src/main/java/com/whatizthis/aeonian/game/GameState.java:684-692 | every later frame that completes has cleared both pending flags, whatever the phase; a failing pending spawn ends the frame with that spawn error |
| Frame.InitializingBecomesReady | app/src/main/java/com/whatizthis/aeonian/game/GameState.java:749-751 | initialising becomes ready and the bodies move in that frame: score and heap come from the ball pass, balls and enemies from the enemy pass; it becomes lost instead iff an enemy strikes the player |
| Frame.ReadyLastsOneFrame | app/src/main/java/com/whatizthis/aeonian/game/GameState.java:752-760 | ready becomes playing with no message and a 0.5 pause, and nothing moves |
| Frame.PlayingContinues | app/src/main/java/com/whatizthis/aeonian/game/GameState.java:768-790 | playing stays playing with motion: score and heap come from the ball pass, balls and enemies from the enemy pass; it becomes lost iff an enemy strikes the player |
| Frame.LostIsFinal | app/src/main/java/com/whatizthis/aeonian/game/GameState.java:762-767 | lost stays lost, shows game over, stops animating, moves nothing, and writes its score to a valid slot |
| Frame.ScoreStaysNonNegative | app/src/main/java/com/whatizthis/aeonian/game/GameState.java:684-692 | a score that is not negative stays so through any frame |

## Left out

- Rendering: the GL code of BaseRect (vertex and texture buffers), Enemy (programs, `prepareToDraw`, `draw`) and GameState (`draw*`, textures, score digits, messages, debug drawing). This is GPU calls with no checkable logic; OutlineAlignedRect.java is not part of this model for the same reason.
- The Android activities, the About box, and the game-over high-score update, which is UI plumbing.
- The older canvas prototype under `whatizthis/aeonian`. It is a separate, earlier implementation.
- `System.nanoTime`, `Random.nextInt` and `Math.sqrt`: their results are inputs, constrained to what they promise.
- `SoundResources.play` and `Log` calls are left out; they do not affect the state.
- The `synchronized` blocks on the saved-game slot. The model is single-threaded and the slot is a plain value.
- The frame-rate smoothing branch is left out because `FRAME_RATE_SMOOTHING` is false; `mRecentTimeDeltaNext`, which only that branch reads, is left out with it.
- The `DEBUG_COLLISIONS` and `EXTRA_CHECK` logging is left out, as is the commented-out `movePath` pass.
- IEEE-754 single-precision rounding: arithmetic is exact over `real`. NaN is represented only by the refusals to normalise the zero vector.
- `setBallInitialSpeed`, `setBallMaximumSpeed`, `setTextResources`, `isAnimating` and the score and border constants only store values or serve the renderer. Nothing modelled reads them.
- The off-screen spawn lines EnemyFactory uses (`Specs.ENEMY_OFF_*`) come from a resources class that is not part of this model. They are the parameter `SpawnLines`.
- The message codes of TextResources are not part of this model. They are the three constructors of `Message`.
- EnemyFactory computes its coordinate ranges once, when the class loads, from the arena constants of that moment. The model computes them from the `Dimensions` passed in; `EnemyFactory.RangesNonEmpty` covers the arena from `setGameDimensions`.
- Ball.java is not part of this model. A ball is given Enemy's interface: position, scale, direction, speed, and radius = x-scale/2.
- The Player class is not part of this model. The player is its rectangle, `Option<Rect>`; `setAlive` is not modelled.
- The pause set by `setPauseTime`: `mPauseDuration` is private to GameState and no method reads it (GameState.java:130, 258, 669), so it has no effect on motion here either.
- Frame.MoveEnemies: states the size and allocation facts per call. The trade of balls for enemies is in `Frame.MoveEnemiesTrades`, and the early stop on striking the player is in `Frame.HitPlayerLeavesRest`.
- Frame.CalculateNextFrame: its own contract states only the invariant and the clock. The behaviour of each phase is in the lemmas `Frame.FirstFrameRecordsClock` through `Frame.LostIsFinal`. For the phases that move bodies, those lemmas tie the resulting balls, heap and enemies to `Frame.MoveBalls` and `Frame.MoveEnemies`.
