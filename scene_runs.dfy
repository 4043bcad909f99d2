// Runs of the scene: sequences of engine callbacks, and what holds across them.

module SceneRuns {
  import opened World
  import opened Obstacles
  import opened Contacts
  import opened SceneRules

  /** An engine callback: a touch, a frame with the random height a spawn would use, or a contact. */
  datatype Event = Touch | Tick(y: real) | Contact(a: NodeName, b: NodeName)

  /** The height a frame carries lies in the spawn band. */
  predicate WellFormed(e: Event)
  {
    e.Tick? ==> MinSpawnY <= e.y <= MaxSpawnY
  }

  predicate AllWellFormed(events: seq<Event>)
  {
    forall i :: 0 <= i < |events| ==> WellFormed(events[i])
  }

  function Apply(s: SceneState, e: Event): SceneState
    requires WellFormed(e)
  {
    match e
    case Touch => AfterTouch(s)
    case Tick(y) => AfterUpdate(s, y)
    case Contact(a, b) => AfterContact(s, a, b)
  }

  /** The state after the callbacks of `events`, in order. */
  function Run(s: SceneState, events: seq<Event>): SceneState
    requires AllWellFormed(events)
    decreases |events|
  {
    if events == [] then s
    else
      assert WellFormed(events[0]);
      Run(Apply(s, events[0]), events[1..])
  }

  /** Number of contacts in `events` that touch the goal sensor. */
  function GoalCount(events: seq<Event>): nat
    decreases |events|
  {
    if events == [] then 0
    else
      (if events[0].Contact? && Resolve(events[0].a, events[0].b) == Score then 1 else 0)
      + GoalCount(events[1..])
  }

  /** `n` frames, each carrying the height `y`. */
  function Ticks(n: nat, y: real): (r: seq<Event>)
    ensures |r| == n
    ensures forall i :: 0 <= i < n ==> r[i] == Tick(y)
  {
    if n == 0 then [] else [Tick(y)] + Ticks(n - 1, y)
  }

  /** Every callback keeps the scene invariant, so every run does. */
  lemma {:induction false} RunKeepsInvariant(s: SceneState, events: seq<Event>)
    requires AllWellFormed(events)
    requires Invariant(s)
    ensures Invariant(Run(s, events))
    decreases |events|
  {
    if events != [] {
      assert WellFormed(events[0]);
      RunKeepsInvariant(Apply(s, events[0]), events[1..]);
    }
  }

  /** Points grow by exactly one per goal contact, in any state, and never otherwise. */
  lemma {:induction false} PointsCountGoals(s: SceneState, events: seq<Event>)
    requires AllWellFormed(events)
    ensures Run(s, events).points == s.points + GoalCount(events)
    decreases |events|
  {
    if events != [] {
      assert WellFormed(events[0]);
      PointsCountGoals(Apply(s, events[0]), events[1..]);
    }
  }

  /** No run leads back to an active game: a run that ends active started active. */
  lemma {:induction false} NoReturnToActive(s: SceneState, events: seq<Event>)
    requires AllWellFormed(events)
    requires Run(s, events).gameState == Active
    ensures s.gameState == Active
    decreases |events|
  {
    if events != [] {
      assert WellFormed(events[0]);
      NoReturnToActive(Apply(s, events[0]), events[1..]);
    }
  }

  /**
   * The game-over transition happens at most once: over any run the hero's actions are
   * removed at most once more, and not at all when the game was already over.
   */
  lemma {:induction false} GameOverAtMostOnce(s: SceneState, events: seq<Event>)
    requires AllWellFormed(events)
    ensures Run(s, events).heroActionsRemoved <= s.heroActionsRemoved + 1
    ensures s.gameState == GameOver ==> Run(s, events).heroActionsRemoved == s.heroActionsRemoved
    decreases |events|
  {
    if events != [] {
      assert WellFormed(events[0]);
      var next := Apply(s, events[0]);
      GameOverAtMostOnce(next, events[1..]);
      assert s.gameState == Active && next.gameState == GameOver ==>
             next.heroActionsRemoved == s.heroActionsRemoved + 1;
      assert next.gameState == Active ==> next.heroActionsRemoved == s.heroActionsRemoved;
    }
  }

  /**
   * Once the game is over the scene is frozen: touches and frames change nothing, fatal
   * contacts change nothing, and only goal contacts still add points to the score.
   */
  lemma {:induction false} GameOverIsFrozen(s: SceneState, events: seq<Event>)
    requires AllWellFormed(events)
    requires Invariant(s) && s.gameState == GameOver
    ensures Run(s, events)
            == s.(points := s.points + GoalCount(events), scoreLabel := s.points + GoalCount(events))
    decreases |events|
  {
    if events != [] {
      assert WellFormed(events[0]);
      var next := Apply(s, events[0]);
      assert next == s.(points := next.points, scoreLabel := next.points);
      GameOverIsFrozen(next, events[1..]);
    }
  }

  /**
   * Frames from a restarted timer count up one fixed step each and no spawn is due
   * until the ninetieth frame: the frame after it is the first to spawn.
   */
  lemma {:induction false} TimerCountsFrames(s: SceneState, m: nat, n: nat, y: real)
    requires MinSpawnY <= y <= MaxSpawnY
    requires s.gameState == Active
    requires s.spawnTimer == m as real * FixedDelta
    requires m + n <= 90
    ensures AllWellFormed(Ticks(n, y))
    ensures Run(s, Ticks(n, y)).gameState == Active
    ensures Run(s, Ticks(n, y)).spawnTimer == (m + n) as real * FixedDelta
    ensures SpawnDue(Run(s, Ticks(n, y)).spawnTimer) <==> m + n == 90
    decreases n
  {
    var ticks := Ticks(n, y);
    assert AllWellFormed(ticks);
    if n > 0 {
      assert !SpawnDue(s.spawnTimer);
      var next := AfterUpdate(s, y);
      assert next.spawnTimer == (m + 1) as real * FixedDelta;
      assert ticks[1..] == Ticks(n - 1, y);
      TimerCountsFrames(next, m + 1, n - 1, y);
    }
  }
}
