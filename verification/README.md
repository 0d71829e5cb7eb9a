# Flappy Bird (Sunset Edition): game rules in Dafny

This project models the game-rule core of `main.js`, a three.js Flappy Bird
clone, as pure functions over one immutable state record. The model covers:

- the bird falling under gravity;
- the `[-8, 8]` band outside which the run ends;
- pipe pairs spawned at the right edge, moved left and removed off-screen;
- the forgiving collision box;
- the score, level and pipe speed;
- the key and touch handlers;
- game over and reset;
- the wing-flap frame sequence.

Positions are exact `real`s.

The state (`Game.GameState`) holds:

- the game-over flag;
- the bird's x, y and vertical velocity;
- the list of pipe pairs, each with its x, gap centre and `scored` flag;
- a `Scoring.Scoreboard` with score, level and pipe speed.

Things the program takes from the browser or from three.js are parameters:

- `mobile`: the user-agent test.
- `rand`: a draw of `Math.random` in `[0, 1)`.
- `bird`: the bird's bounding box in the current frame.

Modules:

- `Geometry`: box centre and size, the box shrunk to 80% about its centre, and the overlap test.
- `Pipes`: pair geometry, the collision test, the spawn rule, `splice`, and the count of uncounted pairs.
- `Scoring`: awarding a point, and the level-up at every tenth point.
- `Physics`: the gravity step and closed-form free fall.
- `Game`: the state, the per-pipe turn, the `forEach` loop, `update`, the input handlers, game over and reset.
- `Wings`: the sprite shown at each frame of a flap.
- `Quirks`: lemmas about the source's unusual behaviours: the per-pipe loop and the reset position.

The model follows the code, including these behaviours:

- There are only two states, playing and game over. There is no not-started
  state: play starts at once, and a reset goes straight back to playing with
  one fresh pair.
- `pipes.splice(index, 1)` inside `forEach` is not safe during iteration: the
  loop skips the pair after a removed one for that frame
  (`Quirks.RemovalSkipsNextPair`).
- The `return` after `gameOver()` leaves only the callback. Later pairs still
  move and can still score (`Quirks.GameOverDoesNotStopTheLoop`). The
  colliding pair is neither scored nor removed.
- The spawn test runs before any pair moves. A pair spawned in a frame moves in
  that frame (`Quirks.SpawnedPairMovesAtOnce`).
- Level and speed are recomputed only when the score reaches a multiple of 10.
  On a consistent board this is the same as `level == score / 10` after every
  point (`Scoring.AwardPoint`).
- The pipe speed is read afresh for each pair. A level-up in the middle of the
  loop speeds up the later pairs of the same frame.
- A reset puts the bird at x = -4 on every device, while the start position is
  -2 on mobile (`Quirks.ResetMovesMobileBird`).
- The gap centre lies in `[-2, 2)`, because `Math.random()` never returns 1.

Assumptions about three.js, which is not part of this model:

- A pipe mesh built from `BoxGeometry(1, 10, 1)` at position `(x, y, 0)` has the
  bounding box centred there, with size `(1, 10, 1)`.
- `intersectsBox` is the closed-interval test on every axis, so touching faces
  intersect.

## Model

| member | source | states |
|---|---|---|
| `Geometry.CenteredBox` | main.js:503-514 | the box built from a centre and a size has exactly that centre and that size |
| `Geometry.Forgiving` | main.js:494-514 | the forgiving box has the pipe box's centre and 0.8 of its size on every axis, and lies inside the pipe box |
| `Geometry.IntersectsIffSharedPoint` | main.js:516 | for well-formed boxes, the separating-axis test holds exactly when the two boxes share a point |
| `Geometry.TouchingFacesIntersect` | main.js:516 | boxes that only touch along a face count as colliding |
| `Geometry.ForgivingHitIsHit` | main.js:499-516 | a hit on the shrunk box is also a hit on the full pipe box, so the shrinking only forgives |
| `Pipes.Gap` | main.js:397-398 | the gap is 5 on desktop and 7 on mobile |
| `Pipes.GapCentre` | main.js:399 | the gap centre derived from a random draw in [0, 1) lies in [-2, 2) |
| `Pipes.CreatePipe` | main.js:396-417 | a new pair starts at x = 15, unscored, with its gap centre in [-2, 2) |
| `Pipes.PairGeometry` | main.js:402-412 | both pipes of a pair share their x extent; the top pipe starts at centre + gap/2, the bottom pipe ends at centre - gap/2, and the opening between them is exactly the gap |
| `Pipes.CollidesIff` | main.js:459 | a collision happens exactly when the bird box meets x in [x - 0.4, x + 0.4], z in [-0.4, 0.4], and y in the top pipe's shrunk span [c + g/2 + 1, c + g/2 + 9] or in the bottom pipe's mirror span |
| `Pipes.ClearInsideWidenedGap` | main.js:489-517 | a bird box strictly within one unit beyond each pipe end never collides, so the leniency widens the opening by 2 |
| `Pipes.MaybeSpawn` | main.js:450-452 | a fresh pair is appended exactly when the list is non-empty and its last pair is left of x = 7; the existing pairs are unchanged |
| `Pipes.RemoveAt` | main.js:483 | `splice(k, 1)` keeps entries before k and shifts every later entry down by one |
| `Scoring.AwardPoint` | main.js:466-472 | a point raises the score by exactly 1; at a multiple of 10 the level becomes score / 10 and the speed 0.05 + 0.01 * level; otherwise level and speed stay; a consistent board stays consistent and its speed rises by 0 or 0.01 |
| `Scoring.FreshIsConsistent` | main.js:104-109 | the starting board (score 0, level 0, speed 0.05) satisfies level = score / 10 and speed = 0.05 + 0.01 * level |
| `Scoring.AwardPointsFromFresh` | main.js:466-472 | after n points from a fresh board, the level is n / 10 and the speed is 0.05 + 0.01 * (n / 10) |
| `Physics.Fall` | main.js:440-441 | one frame lowers the velocity by exactly 0.004, then moves the bird by the new velocity |
| `Physics.FreeFallClosedForm` | main.js:440-441 | falling from rest at height 0, after n frames the velocity is -0.004 n and the height -0.002 n (n + 1) |
| `Physics.FreeFallLeavesAtFrame63` | main.js:440-447 | a bird dropped from rest at height 0 stays in the band for 62 frames and is out of it from frame 63 on |
| `Game.Initial` | main.js:99-110 | the game starts playing, with the bird at rest at (-2 on mobile or -4 on desktop, 0), one fresh pair at x = 15, score 0 and speed 0.05 |
| `Game.GameOver` | main.js:520-524 | game over raises the flag and leaves every other part of the state as it was |
| `Game.Reset` | main.js:527-548 | a reset returns to playing with score 0, level 0, speed 0.05, the bird at rest at (-4, 0), and exactly one fresh unscored pair at x = 15 |
| `Game.OnKeyDown` | main.js:346-359 | only Space acts; while playing it sets the velocity to exactly 0.1 and changes nothing else; after game over it resets, leaving the velocity 0 |
| `Game.OnTouch` | main.js:382-393 | while playing a touch sets the velocity to exactly 0.12 and changes nothing else; after game over it resets |
| `Game.PipeTurn` | main.js:455-484 | one pair's turn moves the pair left by the current speed, keeping its gap centre; a hit sets game over and leaves the moved pair unscored and in place; without a hit the flag is unchanged, the score rises (by one) exactly when the pair was uncounted and is now left of the bird, the pair is then marked counted, and it is removed exactly when it moved left of -15; other pairs are untouched or shifted down by one |
| `Game.VisitPipes` | main.js:454-485 | the loop never touches the bird, never lowers the score, keeps a consistent board consistent, never lengthens the list, and leaves the pairs before its start index in place |
| `Game.TurnMovesPair` | main.js:455-484 | on a consistent board with the pair at least one unit right of -15 and the speed at most 1, a turn keeps the list length, moves the pair between 0.05 and 1 left with its gap centre, leaves the later pairs alone, and keeps the board consistent with at most one more level-up of speed used |
| `Game.VisitMovesEveryPair` | main.js:454-485 | on a consistent board, if every pair from the start index is at least one unit right of -15 and the speed stays at most 1 after one level-up per remaining pair, the loop removes nothing and moves every visited pair between 0.05 and 1 left, keeping its gap centre |
| `Game.Update` | main.js:425-486 | after game over nothing changes; otherwise the velocity drops by 0.004 and y moves by the new velocity; leaving [-8, 8] sets game over with pipes and score untouched; bird x never changes; the score never drops |
| `Game.UpdateMovesPairs` | main.js:449-486 | in a frame that reaches the pipes, with no pair within one unit of -15 and the speed staying at most 1, the list grows only by the pair spawned in that frame, and every pair, the new one included, keeps its gap centre and moves between 0.05 and 1 left |
| `Game.TurnConservesPoints` | main.js:465-484 | in one turn, score plus the number of uncounted pairs is unchanged: only counted pairs are ever removed |
| `Game.VisitConservesPoints` | main.js:454-485 | over the whole loop, score plus the number of uncounted pairs is unchanged |
| `Game.UpdateConservesPoints` | main.js:449-485 | over a frame, the score rises by exactly the number of pairs that became counted, and a pair spawned that frame adds one uncounted pair |
| `Game.UpdateScoreBound` | main.js:465-477 | a frame never lowers the score and raises it by at most the uncounted pairs plus the one possibly spawned |
| `Game.CountedPairsNeverScoreAgain` | main.js:465-476 | if every pair is already counted and none is spawned, a frame awards no point |
| `Game.InitialIsValid` | main.js:85-87 | the starting state has a consistent board and the bird at its start x |
| `Game.UpdatePreservesValid` | main.js:425-486 | a frame keeps the board consistent and the bird at a known x |
| `Game.InputPreservesValid` | main.js:346-393 | key and touch events keep the board consistent and the bird at a known x |
| `Game.FlapOverrides` | main.js:346-393 | a flap does not depend on the earlier velocity, and two flaps equal one, for both key and touch |
| `Game.GameOverIsFrozen` | main.js:426 | after game over, a frame leaves the whole state unchanged |
| `Wings.FrameAt` | main.js:316-334 | frames 0 to 4 show the up sprite, 5 to 8 the down sprite, 9 to 14 the middle sprite, and from frame 15 on the flap has ended |
| `Wings.FlapShape` | main.js:313-334 | a whole flap shows five up frames, four down frames and six middle frames, then ends |
| `Quirks.RemovalSkipsNextPair` | main.js:454-483 | when a turn splices its pair out, the next pair slides into the visited index and leaves the frame exactly as it entered |
| `Quirks.GameOverDoesNotStopTheLoop` | main.js:459-462 | the loop on a game-over state gives the same result as on the same state still playing, with the flag set |
| `Quirks.SpawnedPairMovesAtOnce` | main.js:450-456 | when the list holds one counted pair left of x = 7 that stays on screen, the pair spawned in that frame is visited in the same frame, and both end it moved left by the pipe speed, the new one at 15 minus the speed |
| `Quirks.ResetMovesMobileBird` | main.js:536 | on mobile, an uncounted pair that the bird clears and that moves to x = -3 scores (main.js:465) for the bird at its start x of -2 (main.js:85) and does not score for the bird at its reset x of -4 |

## Left out

- Rendering is not modelled: scene, camera, renderer, shaders, background mountains and lights. It has no effect on the rules.
- Texture loading and sprite swapping are not modelled. They are asynchronous asset work. `Wings.FrameAt` gives only which sprite a frame shows.
- The guard in `flapWings` that ignores a flap during a running animation is not modelled. It only affects the sprite shown.
- The rotation easing and the rotation set by a flap are not modelled. They are cosmetic and use transcendental constants.
- The DOM is not modelled: styles, the score and game-over text, the version label and console logging. These are display only.
- `requestAnimationFrame`, event-listener wiring, `preventDefault` and window resizing are not modelled. One `Game.Update` call stands for one frame.
- The bird's bounding box comes from three.js (`Box3.setFromObject`), so each frame's box is a parameter. The model takes the pipe box from the mesh geometry.
- `Geometry.Forgiving` follows only the non-empty case of three.js `getCenter`/`getSize`. Pipe boxes are never empty.
- `Math.random` and the user-agent test are parameters (`rand`, `mobile`). `Game.Update` takes a draw even in frames that spawn nothing.
- The touch handler is modelled for any device, though the program installs it only on mobile.
- Floating-point rounding is not modelled: positions and speeds are exact reals.
- Removing meshes from the scene is not modelled. Only the pipe list is kept.
