/**
 * The state GameState keeps between frames, the saved-game slot it copies to and from,
 * and the operations the activity and the renderer call outside the frame step.
 *
 * Balls are objects that enemies keep references to, so a ball is an id into `heap`,
 * which holds every ball ever allocated; `balls` lists the ids still in play, in order.
 * A ball leaves `balls` when it is destroyed but stays in `heap`, frozen, exactly as the
 * Java object lives on while an enemy's list of possible collisions still refers to it.
 */
module GameState {
  import opened Wrappers
  import opened Geometry
  import opened Bodies
  import opened Arena
  import EnemyFactory
  import BallFactory

  /** mMaxLives: the lives a reset game starts with. */
  const DefaultMaxLives: int := 3

  /** The play states GAME_INITIALIZING (0), GAME_READY (1), GAME_PLAYING (2), GAME_LOST (4). */
  datatype Phase = Initializing | Ready | Playing | Lost

  /** The status message shown in the middle of the screen. */
  datatype Message = NoMessage | ReadyMessage | GameOverMessage

  /** The saved-game record: what save() copies out and restore() copies back. */
  datatype SavedGame = SavedGame(phase: Phase, message: Message, lives: int, score: int, valid: bool)

  /** The slot as the class initialises it: every field zero and not valid. */
  const EmptySlot: SavedGame := SavedGame(Initializing, NoMessage, 0, 0, false)

  datatype Game = Game(
    phase: Phase,
    animating: bool,
    message: Message,
    prevFrameNsec: int,
    pause: real,
    maxLives: int,
    lives: int,
    score: int,
    allocEnemyPending: bool,
    incrementScorePending: bool,
    player: Option<Rect>,
    balls: seq<BallId>,
    heap: map<BallId, Body>,
    nextBall: nat,
    enemies: seq<Body>)

  /** A freshly constructed GameState: field defaults, no player allocated yet. */
  const NewGame: Game := Game(Initializing, false, NoMessage, 0, 0.0, DefaultMaxLives, 0, 0,
                              false, false, None, [], map[], 0, [])

  /**
   * The references the game holds are to allocated balls: every ball in play and every
   * ball an enemy may collide with is in the heap, ids are below the next id to hand out,
   * and no ball is in play twice.
   */
  predicate Wf(g: Game)
  {
    && (forall id | id in g.balls :: id in g.heap)
    && (forall i | 0 <= i < |g.enemies| :: forall id | id in g.enemies[i].collider.candidates :: id in g.heap)
    && (forall id | id in g.heap :: id < g.nextBall)
    && Distinct(g.balls)
  }

  /** No element occurs twice. */
  predicate Distinct<T(==)>(s: seq<T>)
  {
    forall i, j | 0 <= i < j < |s| :: s[i] != s[j]
  }

  /** Wf reads only the bodies and the id counter. */
  lemma WfOfBodies(g: Game, h: Game)
    requires Wf(g)
    requires h.balls == g.balls && h.heap == g.heap && h.nextBall == g.nextBall && h.enemies == g.enemies
    ensures Wf(h)
  {
  }

  lemma NewGameWf()
    ensures Wf(NewGame)
  {
  }

  // ---------------------------------------------------------------------------
  // The saved-game slot
  // ---------------------------------------------------------------------------

  /**
   * reset: back to the initial play state with a full set of lives and no score.  The
   * bodies are left alone.
   */
  function Reset(g: Game): (g': Game)
    ensures g'.phase == Initializing && g'.animating && g'.message == NoMessage
    ensures g'.prevFrameNsec == 0 && g'.pause == 0.0
    ensures g'.lives == g.maxLives && g'.score == 0
    ensures g' == g.(phase := g'.phase, animating := g'.animating, message := g'.message,
                     prevFrameNsec := g'.prevFrameNsec, pause := g'.pause, lives := g'.lives, score := g'.score)
  {
    g.(phase := Initializing, animating := true, message := NoMessage, prevFrameNsec := 0, pause := 0.0,
       lives := g.maxLives, score := 0)
  }

  /** save: copy phase, message, lives and score into the slot and mark it valid. */
  function Save(g: Game): (s: SavedGame)
    ensures s.valid
    ensures s.phase == g.phase && s.message == g.message && s.lives == g.lives && s.score == g.score
  {
    SavedGame(g.phase, g.message, g.lives, g.score, true)
  }

  /** saveScore: copy only the score and mark the slot valid. */
  function SaveScore(g: Game, slot: SavedGame): (s: SavedGame)
    ensures s.valid && s.score == g.score
    ensures s.phase == slot.phase && s.message == slot.message && s.lives == slot.lives
  {
    slot.(score := g.score, valid := true)
  }

  /**
   * restore: with a valid slot, copy its four fields back and report true; with an
   * invalid one, reset, save the reset state into the slot and report false.
   */
  function Restore(g: Game, slot: SavedGame): (r: (Game, SavedGame, bool))
    ensures r.2 <==> slot.valid
    ensures r.1.valid
    ensures slot.valid ==> r.1 == slot
    ensures slot.valid ==> r.0 == g.(phase := slot.phase, message := slot.message, lives := slot.lives, score := slot.score)
    ensures !slot.valid ==> r.0 == Reset(g) && r.1 == Save(Reset(g))
  {
    if !slot.valid then
      var g' := Reset(g);
      (g', Save(g'), false)
    else
      (g.(phase := slot.phase, message := slot.message, lives := slot.lives, score := slot.score), slot, true)
  }

  /** invalidateSavedGame: mark the slot as holding nothing. */
  function Invalidate(slot: SavedGame): (s: SavedGame)
    ensures !s.valid
    ensures s.(valid := true) == slot.(valid := true)
  {
    slot.(valid := false)
  }

  /**
   * canResumeFromSave: the slot holds a game that is playing or about to play.  Such a
   * slot never also reports a final score, and an invalid slot never resumes.
   */
  function CanResumeFromSave(slot: SavedGame): (b: bool)
    ensures b ==> FinalScore(slot) == -1
    ensures !slot.valid ==> !b
    ensures slot.valid && slot.phase != Initializing && slot.phase != Lost ==> b
  {
    slot.valid && (slot.phase == Playing || slot.phase == Ready)
  }

  /**
   * getFinalScore: the saved score of a finished game, or -1 if the slot holds none.  A
   * score other than -1 always comes from a valid slot holding a lost game.
   */
  function FinalScore(slot: SavedGame): (s: int)
    ensures s != -1 ==> slot.valid && slot.phase == Lost && s == slot.score
    ensures slot.valid && slot.phase == Lost ==> s == slot.score
    ensures !slot.valid ==> s == -1
  {
    if slot.valid && slot.phase == Lost then slot.score else -1
  }

  /** save followed by restore, with nothing in between, gives back the saved fields. */
  lemma SaveRestoreRoundTrip(g: Game, h: Game)
    ensures var r := Restore(h, Save(g));
            && r.2
            && r.0.phase == g.phase && r.0.message == g.message && r.0.lives == g.lives && r.0.score == g.score
            && r.1 == Save(g)
            && r.0 == h.(phase := g.phase, message := g.message, lives := g.lives, score := g.score)
  {
  }

  /** Restoring twice is restoring once: the second restore finds the slot valid and changes nothing. */
  lemma RestoreIdempotent(g: Game, slot: SavedGame)
    ensures var r := Restore(g, slot);
            var r2 := Restore(r.0, r.1);
            r2.0 == r.0 && r2.1 == r.1 && r2.2
  {
  }

  /** After invalidateSavedGame neither query finds a game. */
  lemma InvalidateClearsQueries(slot: SavedGame)
    ensures !CanResumeFromSave(Invalidate(slot))
    ensures FinalScore(Invalidate(slot)) == -1
  {
  }

  /** A saved game can be resumed exactly when it was saved while ready or playing. */
  lemma SaveThenCanResume(g: Game)
    ensures CanResumeFromSave(Save(g)) <==> g.phase == Ready || g.phase == Playing
  {
  }

  /**
   * The score saveScore records is reported as final exactly when the slot already held a
   * lost game; a slot saved from a lost game reports that game's score.
   */
  lemma SaveScoreThenFinalScore(g: Game, slot: SavedGame)
    ensures FinalScore(SaveScore(g, slot)) == (if slot.phase == Lost then g.score else -1)
    ensures g.phase == Lost ==> FinalScore(Save(g)) == g.score
    ensures g.phase != Lost ==> FinalScore(Save(g)) == -1
  {
  }

  /** A restore that finds no saved game leaves a slot that neither resumes nor reports a score. */
  lemma RestoreInvalidSlot(g: Game, slot: SavedGame)
    requires !slot.valid
    ensures var r := Restore(g, slot);
            && r.0.phase == Initializing && r.0.score == 0 && r.0.lives == g.maxLives && r.0.message == NoMessage
            && !CanResumeFromSave(r.1) && FinalScore(r.1) == -1
  {
  }

  // ---------------------------------------------------------------------------
  // Setters and allocation
  // ---------------------------------------------------------------------------

  /** updateScore: one more point. */
  function UpdateScore(g: Game): (g': Game)
    ensures g'.score == g.score + 1
    ensures g' == g.(score := g'.score)
  {
    g.(score := g.score + 1)
  }

  /** setPauseTime: the value is stored and nothing reads it. */
  function SetPauseTime(g: Game, duration: real): (g': Game)
    ensures g'.pause == duration
    ensures g' == g.(pause := g'.pause)
  {
    g.(pause := duration)
  }

  /**
   * surfaceChanged: pause for a second and a half, forget the previous clock reading so
   * the next frame does not leap forward, and draw at least once more.
   */
  function SurfaceChanged(g: Game): (g': Game)
    ensures g'.prevFrameNsec == 0 && g'.animating && g'.pause == 1.5
    ensures g' == g.(prevFrameNsec := 0, animating := true, pause := g'.pause)
  {
    SetPauseTime(g, 1.5).(prevFrameNsec := 0, animating := true)
  }

  /** allocPlayer: a square one eleventh of the arena width, at the arena centre. */
  function AllocPlayer(g: Game, d: Dimensions): (g': Game)
    ensures g'.player.Some?
    ensures var p := g'.player.value; p.xs == p.ys && p.xs * 11.0 == d.width
    ensures var p := g'.player.value; p.x + p.x == d.width && p.y + p.y == d.height
    ensures g' == g.(player := g'.player)
  {
    var sized := SetScale(Rect(0.0, 0.0, 1.0, 1.0), d.width / 11.0, d.width / 11.0);
    g.(player := Some(SetPosition(sized, d.width / 2.0, d.height / 2.0)))
  }

  /** allocEnemy: append one spawned enemy; a spawn that fails is passed on as the failure. */
  function AllocEnemy(g: Game, d: Dimensions, lines: EnemyFactory.SpawnLines, draws: EnemyFactory.SpawnDraws)
    : (r: Result<Game, EnemyFactory.SpawnError>)
    requires EnemyFactory.ValidDraws(d, lines, draws)
    ensures r.Failure? <==> EnemyFactory.Spawn(d, lines, draws).Failure?
    ensures r.Success? ==> && |r.value.enemies| == |g.enemies| + 1
                           && r.value.enemies[..|g.enemies|] == g.enemies
                           && r.value.enemies[|g.enemies|] == EnemyFactory.Spawn(d, lines, draws).value
                           && r.value == g.(enemies := r.value.enemies)
  {
    match EnemyFactory.Spawn(d, lines, draws)
    case Failure(e) => Failure(e)
    case Success(enemy) => Success(g.(enemies := g.enemies + [enemy]))
  }

  /** Why a ball is refused: the waypoint is the start point, so there is no direction. */
  datatype BallError = NoBallDirection

  /**
   * allocBall: append a ball spawned towards the touched point.  The new ball gets the
   * next unused id.
   */
  function AllocBall(g: Game, d: Dimensions, wx: real, wy: real, length: real): (r: Result<Game, BallError>)
    requires IsRoot(length, wx - d.ballStartX, wy - d.ballStartY)
    ensures r.Failure? <==> BallFactory.Spawn(d, wx, wy, length).None?
    ensures r.Success? ==> && r.value.balls == g.balls + [g.nextBall]
                           && r.value.heap == g.heap[g.nextBall := BallFactory.Spawn(d, wx, wy, length).value]
                           && r.value.nextBall == g.nextBall + 1
                           && r.value == g.(balls := r.value.balls, heap := r.value.heap, nextBall := r.value.nextBall)
  {
    match BallFactory.Spawn(d, wx, wy, length)
    case None => Failure(NoBallDirection)
    case Some(ball) =>
      Success(g.(balls := g.balls + [g.nextBall], heap := g.heap[g.nextBall := ball], nextBall := g.nextBall + 1))
  }

  /** Allocating a ball keeps every reference the game holds valid, the new id included. */
  lemma AllocBallKeepsWf(g: Game, d: Dimensions, wx: real, wy: real, length: real)
    requires Wf(g)
    requires IsRoot(length, wx - d.ballStartX, wy - d.ballStartY)
    ensures AllocBall(g, d, wx, wy, length).Success? ==> Wf(AllocBall(g, d, wx, wy, length).value)
  {
    if AllocBall(g, d, wx, wy, length).Success? {
      var g' := AllocBall(g, d, wx, wy, length).value;
      assert forall i | 0 <= i < |g.balls| :: g'.balls[i] == g.balls[i];
      assert g.nextBall !in g.balls;
    }
  }

  /** A spawned enemy starts with no possible collisions, so the references stay valid. */
  lemma AllocEnemyKeepsWf(g: Game, d: Dimensions, lines: EnemyFactory.SpawnLines, draws: EnemyFactory.SpawnDraws)
    requires Wf(g)
    requires EnemyFactory.ValidDraws(d, lines, draws)
    ensures AllocEnemy(g, d, lines, draws).Success? ==> Wf(AllocEnemy(g, d, lines, draws).value)
  {
  }
}
