# Snake game simulation, modelled in Dafny

This project models the simulation core of a React Native snake game. A snake
moves across a bounded field in sub-steps of one eighth of a 25-unit box. It
grows by three segments and scores ten points when its head comes within 15
units of the food on both axes. The game ends when the head leaves the field or
lands exactly on a body segment other than the tail.

The model covers:

- the collision test;
- the segment advancer: the initial snake, the three candidate heads of a tick, and the shift of the body;
- the food rules: the validity test, the eating test and the rejection-sampling placement loop;
- the session: the tick, the swipe handler, the "Play Again" restart, and runs of these events.

Coordinates are Dafny `real`s, so they are exact rationals. Every value the game
produces is an integer or a multiple of 1/8 of moderate size, so exact
arithmetic gives what the program computes.

Modules and files:

- `types.dfy` (`Types`): the segment, food and direction records. It also holds
  `Progress`, the signed distance along a direction, and `OnTrack`, "on the same
  line along a direction". The contracts below are stated with these two.
- `collision.dfy` (`CollisionCheck`): `utils/collision.ts`.
- `snake.dfy` (`Snake`): `utils/snake.ts`.
- `food.dfy` (`FoodPlacement`): `utils/food.ts`.
- `app.dfy` (`App`): the session logic of `App.tsx`. The transitions are
  functions on a `Session` value. The class `Game` keeps the same state in
  fields, and its methods `Tick`, `SetDirection` and `Restart` update them in
  place. Each method's postcondition equates the new state with the matching
  function applied to the old state.

Each random draw of the program becomes a parameter in [0, 1). This covers the
starting direction, the spawn point and the food candidates. A sequence of
draws stands for the random source of the food loop.

Session invariant (`App.Consistent`, kept by every transition): the score is a
non-negative multiple of ten, and the snake has `1 + 3 * score / 10` segments.

Behaviour of the code worth noting:

- Food validity uses the closed box `[0, width] x [0, height]`, not the open one.
- Food candidates are `floor(r * extent - radius)`. They range over
  `[-radius, extent - radius)`, and the validity test rejects the negative ones.
- "Play Again" spawns the new snake against the direction held before the
  restart, not the newly drawn one. It checks the new food against the start-up
  snake, not the new one.
- Nothing keeps the spawn point inside the field. `SpawnNearEdgeCollidesAtFirstTick`
  exhibits a start that collides with the boundary on the first tick.

## Model

| member | source | states |
|---|---|---|
| `Snake.Displace` | utils/snake.ts:39-47 | the moved segment is exactly `d` ahead along the move, on the same line, with the same ordinal |
| `Snake.InitialSnakeSegments` | utils/snake.ts:3-22 | one segment with ordinal 1, lying exactly 100 behind the sampled integer point along the direction of travel |
| `Snake.GenerateSnakeSegments` | utils/snake.ts:24-50 | one head per frame slot; slot i has ordinal `|oldSnake| + 1 + i` and lies `foodBox * 0.125 * (n - i)` ahead of the old head on its line |
| `Snake.SlotHead` | utils/snake.ts:32-48 | the copy of the head for slot i of n has ordinal `length + 1 + i` and lies `foodBox * 0.125 * (n - i)` ahead of the head on its line |
| `Snake.SubStepSpacing` | utils/snake.ts:31-47 | consecutive candidate heads are one eighth of a box apart on one line; the last is one eighth ahead of the old head; with a positive box the distances strictly decrease with i |
| `Snake.ShiftedSnake` | utils/snake.ts:56-69 | same length; the new head at index 0; old segment i-1 at index i, so the old tail is dropped; an empty snake stays empty |
| `Snake.NextSnakeSegments` | utils/snake.ts:60-68 | the array-filling loop returns exactly `ShiftedSnake` of its inputs |
| `Snake.GenerateMove` | utils/snake.ts:71-74 | a draw in [0, 1) picks Up, Down, Left, Right on its four quarters, in the enumeration's order |
| `CollisionCheck.FindIndex` | utils/collision.ts:18-20 | -1 exactly when no segment is on the head's cell; otherwise the first index of such a segment |
| `CollisionCheck.Collision` | utils/collision.ts:3-25 | true whenever the head's box leaves the field (edges count as inside); otherwise true exactly when a segment other than the tail is on the head's cell; a snake of at most one segment collides only with the boundary |
| `CollisionCheck.OrdinalsIrrelevant` | utils/collision.ts:19 | the result depends only on x and y: ordinals of head and segments have no effect |
| `FoodPlacement.CheckFoodPos` | utils/food.ts:3-21 | the early-return loop answers exactly "inside the closed box and sharing neither x nor y with any segment" |
| `FoodPlacement.CanEatFood` | utils/food.ts:23-34 | true exactly when the food lies strictly inside the square of half-side `radius` around the head; never true for `radius <= 0` |
| `FoodPlacement.FirstValidFood` | utils/food.ts:36-54 | a result is a valid food position and is the first candidate among the draws that is valid; there is a result exactly when some draw gives a valid candidate |
| `FoodPlacement.GenerateFood` | utils/food.ts:43-53 | the sampling loop returns exactly `FirstValidFood` of its draws |
| `FoodPlacement.CandidateBelow` | utils/food.ts:44-45 | a draw in [0, 1) gives an integer coordinate below `extent - radius` |
| `FoodPlacement.PlacedFoodBounds` | utils/food.ts:43-53 | placed food has integer coordinates with `0 <= x < width - radius` and `0 <= y < height - radius` |
| `App.IsHorizontalMove` | App.tsx:198-204 | a move is horizontal exactly when it is not vertical |
| `App.TickStep` | App.tsx:63-87 | keeps the direction; ends the game exactly on collision and then freezes snake, food and score; an eating tick puts the three new heads before the whole old snake, adds 10 and places valid food against the grown snake; any other tick puts the kept head first, drops the tail and keeps food and score |
| `App.TickKeepsConsistent` | App.tsx:73-86 | every tick keeps the session invariant: a multiple-of-ten score and a length of one plus three per food eaten |
| `App.Steer` | App.tsx:106-126 | no change once over; a swipe along the current axis (`|dx| > |dy|` on a horizontal move, `|dx| <= |dy|` on a vertical one) leaves the move unchanged; never the reverse of the current move; either unchanged or at a right angle; a swipe with `|dx| > |dy|` (ties are vertical) turns a vertical move Right for positive dx and Left otherwise; any other swipe turns a horizontal move Down for positive dy and Up otherwise |
| `App.InitialSession` | App.tsx:38-50 | the start-up state is consistent, running, with score 0, the direction `GenerateMove` of the draw, a snake spawned against that direction and food valid for that snake |
| `App.RestartStep` | App.tsx:128-141 | offered only once the game is over; score 0, running, one segment, a newly drawn direction; the snake is spawned against the previous direction and the food is valid for the start-up snake |
| `App.SpawnNearEdgeCollidesAtFirstTick` | utils/snake.ts:9-19 | a rightward start drawn at a tenth of a 400-wide field spawns at x = -60, and the first tick collides with the boundary |
| `App.Apply` | App.tsx:90-141 | every event keeps the session invariant; a frame is `TickStep` while the game runs and changes nothing once it is over; a swipe changes only the direction, to `Steer` of the old one; "Play Again" is `RestartStep` once the game is over and changes nothing while it runs |
| `App.Run` | App.tsx:53-104 | over any run of events the invariant holds; without "Play Again" the score never falls and the snake never shrinks; a finished game stays unchanged until "Play Again" |
| `App.Game.constructor` | App.tsx:38-50 | the fields hold `InitialSession` of the draws, and the start-up snake is remembered |
| `App.Game.Tick` | App.tsx:63-87 | the fields become `TickStep` of the old state, and the invariant is kept |
| `App.Game.SetDirection` | App.tsx:106-126 | the direction becomes `Steer` of the old direction, and nothing else changes |
| `App.Game.Restart` | App.tsx:128-141 | callable only once the game is over; the fields become `RestartStep` of the old state, and the invariant is kept |

## Left out

- Rendering is not modelled: the canvas, ovals, the food image, styles, and the head and body size offsets. It has no effect on the simulation.
- The gesture library, the alert dialog and React hooks are not modelled. Only the decisions of the pan handler and the "Play Again" handler are kept. React's deferred state updates are treated as taking effect at once, in the order the handlers issue them.
- Frame pacing is not modelled: `requestAnimationFrame`, `cancelAnimationFrame`, `performance.now`, `lastRenderTime`, `FRAME_INTERVAL` and `TOLERANCE`. They are wall-clock scheduling with floating-point modulo. A `Frame` event stands for a frame on which a tick is due.
- `gameOverRef` is not a separate field. It is always set together with `gameOver`, so one field models both.
- `Math.random` becomes parameters: draws in [0, 1), and a sequence of draws for the food loop. The program's loop runs until a draw is accepted. The model's loop returns `None` when the supplied draws run out.
- App.Game.Tick: requires the draws to contain an accepted food position when the tick eats. This stands in for the termination of the program's unbounded sampling loop, which the program itself assumes.
- App.Game.Restart: requires the draws to contain an accepted food position, for the same reason.
- App.Game.constructor: requires the draws to contain an accepted food position, for the same reason.
- `getSnakeSegmentKey` is not modelled. It depends on number-to-string formatting and only serves as a list key for rendering.
- `Dimensions.get` screen sizing is not modelled. Width and height are parameters of the session.
- The `!food` guard of `validFoodPos` is not modelled. Every caller passes a defined food.
- Snake.GenerateSnakeSegments: requires a non-empty snake. The program reads the first segment's fields and would fail on an empty one, and the session never has one.
- Snake.GenerateMove: requires its draw in [0, 1), which is the range of the random source. Outside it the program would index past the list of moves.
- IEEE double rounding is not modelled. All values in play are integers or multiples of 1/8 of moderate size, which doubles represent exactly.
- NaN and infinite swipe extents are not modelled.
- `generateFood` cannot change the snake it is given: sequences are values, so no aliasing can occur.
