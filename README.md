# HoppyBunny game scene, modelled in Dafny

HoppyBunny is a one-screen side-scroller. A touch gives the bunny (the hero) an upward
impulse and gravity pulls it back down. The ground scrolls left, and obstacles with a
"goal" gap in them scroll in from the right. Passing through a goal scores a point.
Touching anything else ends the run and shows a restart button.

This project models the per-frame logic of the SpriteKit scene class `GameScene`. The
engine is stripped away, leaving a small deterministic state machine:

- **Touch.** `touchesBegan` issues one impulse of (0, 300) to the hero, and only while
  the game is active.
- **Frame.** `update` does nothing once the game is over. Otherwise it caps the hero's
  upward velocity at 400. It then scrolls the ground (`scrollWorld`), moving the scroll
  layer left by `scrollSpeed * fixedDelta` and recycling tiles that have left the scene
  to its right edge. Next it scrolls the obstacles (`updateObstacles`): the obstacle layer
  moves left by the same step, obstacles at or left of scene x = -26 are removed, and
  when the spawn timer has reached 1.5 a new obstacle is spawned at scene (347, y) with
  y in [234, 382] and the timer restarts. Last, the timer advances by `fixedDelta`.
- **Contact.** `didBegin` scores a point when either node is named "goal". Any other
  contact ends an active game: the hero's actions are removed and the restart button
  becomes active. Such a contact is ignored once the game is over.

Layout:

- `world.dfy` (`World`): positions, the two scrolling constants, and the translation
  between a layer and the scene (scene = layer position + child position).
- `ground.dfy` (`Ground`): tiles, and the recycling rule for one tile and for the pool.
- `obstacles.dfy` (`Obstacles`): the culling filter, the spawn position and the spawn
  constants.
- `contacts.dfy` (`Contacts`): node names and the goal/terminal classification.
- `scene_rules.dfy` (`SceneRules`): the scene's state as a value (`SceneState`), its
  invariant, and one transition function per callback.
- `scene_runs.dfy` (`SceneRuns`): sequences of callbacks (`Run`), and what holds across
  them.
- `game_scene.dfy` (`GameSceneModel`): the class `GameScene`. It has the fields the
  callbacks update in place: ground tiles in an `array`, obstacles in a `seq`. Each
  callback is written step by step, as in the source, and is proved to perform exactly
  the matching `SceneRules` transition on `State()`.

Abstractions:

- CGFloat and CFTimeInterval values are `real`.
- `fixedDelta` is exactly 1/60, so the timer reaches 1.5 after exactly 90 frames.
- Engine effects are recorded in fields:
  - the impulses applied to the hero (`impulses`);
  - the number of `removeAllActions` calls (`heroActionsRemoved`);
  - the restart button's state (`restartButton`);
  - the number shown by the score label (`scoreLabel`).
- The random height `CGFloat.random(in: 234...382)` becomes a parameter `y` of `Update`
  and `UpdateObstacles`, required to lie in that band.
- The contact becomes the two node names (`NodeName`, unset or a string).

Notes on the code's behaviour:

- A tile is recycled once its right edge (its centre plus half its width) is at or left
  of scene x = 0.
- `update` ignores its `currentTime` argument and always advances by `fixedDelta`;
  every active frame scrolls both layers by 100/60.
- A goal contact scores even after the game is over (`AfterContact`,
  `SceneRuns.GameOverIsFrozen`).

## Model

| member | source | states |
|---|---|---|
| World.Shifted | HoppyBunny/GameScene.swift:97 | a layer moves strictly left, by exactly `scrollSpeed * fixedDelta`, and keeps its y |
| World.LayerRoundTrip | HoppyBunny/GameScene.swift:109-112 | converting a scene point into layer space and back gives the point again, so a repositioned node sits where the scene point says |
| World.ShiftedMovesChildrenLeft | HoppyBunny/GameScene.swift:97-103 | after a scroll, every child of the layer is one step further left in the scene at the same height |
| Ground.RecycledTile | HoppyBunny/GameScene.swift:103-113 | a tile whose scene x is at or below -width/2 goes to scene (sceneWidth/2 + width, its old scene y); any other tile is left untouched; the width never changes |
| Ground.OffLeftIsRightEdgePastZero | HoppyBunny/GameScene.swift:106 | the recycling test holds exactly when the tile's right edge is at or left of scene x = 0 |
| Ground.ScrolledPoolOnScreen | HoppyBunny/GameScene.swift:96-115 | after a scroll, no tile of the pool is left off the left edge (recycling happens in the same frame), given a positive scene width and non-negative tile widths |
| Ground.ScrollingKeepsReach | HoppyBunny/GameScene.swift:96-115 | if every tile lies no further right than its re-entry point, that still holds after a frame of scrolling |
| Ground.ScrollingKeepsPool | HoppyBunny/GameScene.swift:99-113 | scrolling keeps the number of tiles and each tile's width |
| Obstacles.Culled | HoppyBunny/GameScene.swift:121-133 | removing the obstacles that have left the scene never lengthens the list |
| Obstacles.CulledOnlySurvivors | HoppyBunny/GameScene.swift:124-132 | every obstacle kept was in the layer and has scene x > -26 |
| Obstacles.CulledKeepsSurvivors | HoppyBunny/GameScene.swift:121-133 | every obstacle with scene x > -26 is kept (with CulledOnlySurvivors: an obstacle is removed iff it is past the threshold) |
| Obstacles.CulledAppend | HoppyBunny/GameScene.swift:121-133 | culling decides obstacle by obstacle and keeps the original order: culling a concatenation concatenates the culled parts |
| Obstacles.CulledSingle | HoppyBunny/GameScene.swift:126-132 | one obstacle is removed exactly when its scene x is at or below -26, the threshold included |
| Obstacles.CulledNone | HoppyBunny/GameScene.swift:121-133 | when no obstacle has left the scene, none is removed |
| Obstacles.SpawnPosition | HoppyBunny/GameScene.swift:143-146 | the layer position given to a new obstacle puts it at scene (347, y), which is not past the removal threshold |
| Contacts.Resolve | HoppyBunny/GameScene.swift:163-164 | a contact scores iff either node is named "goal"; otherwise it is terminal |
| SceneRules.Initial | HoppyBunny/GameScene.swift:23-27 | a new scene is active, with 0 points, a zero timer and no impulses, and satisfies the scene invariant |
| SceneRules.AfterTouch | HoppyBunny/GameScene.swift:69-75 | a touch while not active changes nothing; while active it appends exactly one impulse (0, 300) and changes nothing else; the invariant is kept |
| SceneRules.CappedVelocity | HoppyBunny/GameScene.swift:83-88 | the capped velocity is at most 400; a velocity at or below 400 (every downward one included) is untouched; one above becomes exactly 400 |
| SceneRules.AfterScroll | HoppyBunny/GameScene.swift:96-115 | the scroll layer moves one step; the tile count is kept; each tile that left is placed at its re-entry point with its scene y, and every other tile is unchanged; nothing else changes |
| SceneRules.AfterObstacles | HoppyBunny/GameScene.swift:117-151 | the obstacle layer moves one step; the culled list is kept in order; a spawn happens iff the timer is >= 1.5, appends exactly one obstacle at scene (347, y) after the cull and zeroes the timer; otherwise the timer is kept and the list does not grow |
| SceneRules.AfterUpdate | HoppyBunny/GameScene.swift:78-94 | a frame while over changes nothing; while active it caps the velocity, moves both layers one step, recycles the tiles as AfterScroll does, culls and spawns obstacles as AfterObstacles does, and sets the timer to (0 if due, else the old timer) + 1/60; state, points, label, impulses and button are unchanged; the invariant (0 <= timer < 1.5 + 1/60 among others) is kept |
| SceneRules.AfterContact | HoppyBunny/GameScene.swift:154-187 | points grow by 1 exactly on a goal contact, and the label shows the new value; the state is over afterwards iff it was over or the contact was terminal; a terminal contact while over changes nothing; while active, it removes the hero's actions once and activates the restart button |
| SceneRuns.RunKeepsInvariant | HoppyBunny/GameScene.swift:69-187 | any sequence of touches, frames and contacts keeps the scene invariant |
| SceneRuns.PointsCountGoals | HoppyBunny/GameScene.swift:163-174 | across any run, points grow by exactly the number of goal contacts, so they never decrease |
| SceneRuns.NoReturnToActive | HoppyBunny/GameScene.swift:176-180 | a run that ends active started active: no path leads from game over back to active |
| SceneRuns.GameOverAtMostOnce | HoppyBunny/GameScene.swift:176-183 | across any run, the hero's actions are removed at most once more, and never once the game is over |
| SceneRuns.GameOverIsFrozen | HoppyBunny/GameScene.swift:69-187 | from game over, any run leaves everything unchanged except points and label, which grow by the number of goal contacts |
| SceneRuns.TimerCountsFrames | HoppyBunny/GameScene.swift:136-150 | from a timer of m frames, n more active frames (m + n <= 90) give a timer of exactly (m + n)/60, and a spawn is due iff m + n = 90 |
| GameSceneModel.RemoveLeftObstacles | HoppyBunny/GameScene.swift:121-133 | the removal loop over a snapshot of the children leaves exactly the culled list |
| GameSceneModel.GameScene.constructor | HoppyBunny/GameScene.swift:23-27 | the fields start in the initial state, with the restart button hidden and the label at 0, and the scene invariant holds |
| GameSceneModel.GameScene.TouchesBegan | HoppyBunny/GameScene.swift:69-75 | performs AfterTouch on the scene's fields and keeps the invariant |
| GameSceneModel.GameScene.Update | HoppyBunny/GameScene.swift:78-94 | performs AfterUpdate on the scene's fields, tile array included, and keeps the invariant |
| GameSceneModel.GameScene.ScrollWorld | HoppyBunny/GameScene.swift:96-115 | the loop over the tile array performs AfterScroll |
| GameSceneModel.GameScene.UpdateObstacles | HoppyBunny/GameScene.swift:117-151 | performs AfterObstacles on the scene's fields |
| GameSceneModel.GameScene.DidBegin | HoppyBunny/GameScene.swift:154-187 | performs AfterContact on the scene's fields and keeps the invariant |

## Left out

- Scene setup in `didMove` (HoppyBunny/GameScene.swift:29-67) is not modelled. This
  covers the node lookups by name, the forced casts and `hero.isPaused`. The constructor
  takes the hero's velocity, the layers, the tiles and the initial obstacles as inputs.
  It does keep the two visible effects: the restart button starts hidden and the label
  shows 0.
- The restart handler closure (HoppyBunny/GameScene.swift:45-58) is left out. It builds
  and presents a new scene, which is scene lifecycle. Only the button's state is kept.
- Physics internals are left out: how an impulse changes the velocity, gravity, and when
  contacts fire. An impulse is a recorded command and a contact is an input.
- A missing physics body (`?? 0`, optional chaining) is left out; the hero always has a
  velocity.
- Floating-point rounding is left out. Arithmetic is exact on `real`, so the timer is
  exactly n/60 after n frames.
- Random draws are left out. `CGFloat.random` becomes a parameter constrained to
  [234, 382]. Uniformity and independence of the draws are not modelled.
- `obstacleSource.copy()` is left out. An obstacle is its position only, so two
  obstacles at the same position cannot be told apart. The template obstacle sits in
  the obstacle layer and is culled like the others. It appears in the initial list of
  positions.
- Rendering is left out: label text, the button widget and animation effects. Each is
  a recorded field.
- The frame's `currentTime` is not modelled, because the source ignores it.
- SceneRuns.TimerCountsFrames: the timer is exact, so a spawn is due after exactly 90
  frames. In IEEE doubles, ninety additions of 1.0/60.0 give 1.4999999999999996, which
  is below 1.5, so the program itself spawns every 91 frames.
- Crash paths are not modelled, because the typed model cannot reach them. These are the
  forced casts `as!` of the layers' children and of the copied obstacle
  (HoppyBunny/GameScene.swift:100, 121, 139), and the forced unwraps of the contact
  bodies' nodes (HoppyBunny/GameScene.swift:160-161).
- `points` is an unbounded integer. Swift's `Int` would trap on overflow after 2^63 - 1
  goals.
- When in a frame the engine calls these callbacks, relative to its own physics step,
  is not modelled. `SceneRuns.Run` applies callbacks in any order the host chooses.
