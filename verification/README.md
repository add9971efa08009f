# Snake engine model

A Dafny model of the game logic of a small raylib snake game
(`game/src/main.cpp`). The engine keeps its whole state in globals: a
fixed-capacity array of 100 body segments with a logical length, a shadow
array of previous positions, one fruit, the flags "game over" and "food must
be spawned", and a frame counter. Every frame it runs, in this order, the
collision tests (walls, own body, food), the food placement by rejection
sampling, the arrow-key steering and the move, which happens on every fifth
frame only.

The model has four modules:

- `Geometry` (geometry.dfy): pixel vectors, grid cells, the strict box-overlap
  test used for eating and the wall test. It proves that on the 32-pixel grid
  the overlap test means "same cell", and that the cells the food generator
  draws are exactly the positions that pass the wall test.
- `Steering` (steering.dfy): the four key tests of `HandleInput` as a pure
  function of the head speed. It proves that the head always stays a unit
  move, and that within one frame's key tests a single key never turns the
  head back on itself. It also proves that two keys can do so, whether
  pressed in the same frame (moving up, "right" is honoured and then "down"
  is honoured against the new speed) or on two frames between moves, since
  the speed persists until the next move.
- `Chain` (chain.dfy): the body as a list of positions, head first, and what
  one move does to it. The head advances and every other segment takes its
  predecessor's cell. Lemmas cover self-collision after a move and growth into
  the vacated tail cell.
- `Game` (game.dfy): the class `SnakeGame`. It holds the two arrays and the
  scalar globals, and its methods follow the source function by function,
  loops included. Each method's postcondition ties the new array contents to
  a sequence function of the old contents (`Recorded`, `Advanced`, `Grown`,
  `Steered`). The lemmas about those functions state what a frame does to
  the body: it follows the head, it grows by the cell the tail left, and it
  stays on the grid.

Key presses are boolean parameters. The random generator is a sequence of
drawn cells (`rolls`), each within the generator's bounds. `FirstFree` is
the reference definition of where rejection sampling stops.

## Model

| member | source | states |
|---|---|---|
| Geometry.CellPos | game/src/main.cpp:222-225 | a drawn cell's corner is on the 32-pixel grid and, for a cell in the generator's range, lies inside the screen |
| Geometry.OverlapIffSameCell | game/src/main.cpp:263-268 | for grid positions the strict 32x32 box-overlap test holds exactly when the two positions are equal |
| Geometry.SafeIffDrawableCell | game/src/main.cpp:243-250 | a grid position passes the wall test exactly when it is the corner of a cell the food generator can draw, and that cell maps back to the position |
| Steering.AxisOnGrid | game/src/main.cpp:197-209 | each of the four unit speeds is a grid vector |
| Steering.SteerHonoursPerpendicular | game/src/main.cpp:195-210 | from a unit move a pressed key is honoured exactly when its axis is perpendicular to the motion, otherwise the speed stays |
| Steering.SteerKeepsAxis | game/src/main.cpp:195-210 | one key test keeps the speed one of (±32,0), (0,±32) and never yields the reverse of the current speed |
| Steering.TurnHeadKeepsAxis | game/src/main.cpp:195-210 | after all four key tests of a frame the head speed is still one of the four unit moves |
| Steering.OneKeyNeverReverses | game/src/main.cpp:195-210 | within one frame's key tests, one pressed key never reverses the head; with none pressed the speed is unchanged |
| Steering.TwoKeysCanReverse | game/src/main.cpp:195-210 | moving up, pressing right and down in the same frame yields moving down |
| Game.KeysOnTwoFramesCanReverse | game/src/main.cpp:193-211 | moving up, right pressed on one frame and down on a later frame before the next move leave the head moving down: the speed persists between moves |
| Chain.Follow | game/src/main.cpp:178-189 | a move keeps the length, puts the head at old head plus speed and every other segment at its predecessor's old position |
| Chain.FollowHitsSelf | game/src/main.cpp:253-260 | after a move the head lies on another segment exactly when it moved onto a cell of the old body other than the tail |
| Chain.GrowAfterFollow | game/src/main.cpp:270-271 | growing into the tail's vacated cell after a move gives the old body with the new head in front |
| Game.Recorded | game/src/main.cpp:170-173 | the recorded buffer holds the positions of the first n segments and keeps every later slot |
| Game.Advanced | game/src/main.cpp:176-190 | a move changes only the first n segments: the head advances by its speed, segment i takes segment i-1's old position, speeds are kept |
| Game.Grown | game/src/main.cpp:270-271 | growth writes the recorded tail position into slot n, keeps its speed and every other slot |
| Game.Steered | game/src/main.cpp:195-210 | steering touches only the head's speed |
| Game.AdvancedFollows | game/src/main.cpp:176-190 | on the active part a move step is one `Follow` of the positions by the head's speed |
| Game.GrownAppends | game/src/main.cpp:270-271 | growth appends the recorded tail position to the active body |
| Game.SteeredKeepsPositions | game/src/main.cpp:195-210 | steering changes no active position |
| Game.SteerThenMove | game/src/main.cpp:163-164 | on a move frame the active body follows the speed produced by that frame's keys |
| Game.MoveThenGrow | game/src/main.cpp:263-272 | eating on the frame after a move gives the previous body with the new head in front, so no cell is skipped |
| Game.SelfHitIffSameCell | game/src/main.cpp:253-260 | the index-by-index self test over the active segments is exactly `HitsSelf` of the body |
| Game.RecordedKeepsGrid | game/src/main.cpp:170-173 | recording keeps the buffer on the grid |
| Game.AdvancedKeepsGrid | game/src/main.cpp:176-190 | a move by a unit speed keeps every segment on the grid and keeps the head's speed |
| Game.GrownKeepsGrid | game/src/main.cpp:270 | growth keeps every segment on the grid |
| Game.SteeredKeepsGrid | game/src/main.cpp:195-210 | steering keeps every segment on the grid and the head speed a unit move |
| Game.FirstFree | game/src/main.cpp:220-237 | the index where sampling stops is the first draw outside the body: it is outside, every earlier draw is on the body |
| Game.SnakeGame.EatsIffHeadOnFruit | game/src/main.cpp:263-268 | in a valid state the eating test holds exactly when the head is on the fruit's position |
| Game.SnakeGame.GrownBodyAppends | game/src/main.cpp:263-273 | after the eating test the body is the old body plus the last recorded position when the head is on the fruit, and unchanged otherwise |
| Game.SnakeGame.constructor | game/src/main.cpp:22-30 | the zero-initialised globals: empty snake, zero arrays, fruit at the origin, flags false, counter 0 |
| Game.SnakeGame.InitGame | game/src/main.cpp:57-86 | length 1, every slot at (32,32) with speed (32,0), previous positions zero, not over, food pending; body is [(32,32)] |
| Game.SnakeGame.Tick | game/src/main.cpp:88-99 | while running, one update and the frame counter up by exactly 1; once over, nothing changes |
| Game.SnakeGame.UpdateGame | game/src/main.cpp:154-165 | once over nothing changes; otherwise collision, food placement on the grown body, steering and move, in that order (`Stepped`) |
| Game.SnakeGame.UpdateSnake | game/src/main.cpp:167-191 | the buffer is `Recorded` from the old segments; on a move frame the segments are `Advanced`, otherwise unchanged; slots past the length untouched |
| Game.SnakeGame.HandleInput | game/src/main.cpp:193-211 | the segments become `Steered` by the pressed keys: only the head speed may change |
| Game.SnakeGame.SpawnFood | game/src/main.cpp:213-238 | no pending placement: nothing changes; otherwise the fruit is the first free draw, inside the walls and off every active segment, and nothing is pending |
| Game.SnakeGame.HandleCollision | game/src/main.cpp:240-274 | game over is set (never cleared) exactly on a wall hit or a self hit; on a head/fruit overlap the length grows by one with the new tail at the last recorded position and food becomes pending; fruit and counter kept |

## Left out

- Drawing and window handling (`main`, `DrawGame`, `DrawGameOver`, the raylib window and drawing calls) are not modelled. `Tick` does not model its `DrawGame`/`DrawGameOver` calls, which only render.
- Colours of segments and fruit are not modelled because they are display-only.
- The source's floating-point `Vector2` values are modelled as integers. Every value the engine writes is a whole multiple of 32, so no rounding occurs.
- Key presses (`IsKeyPressed`) are boolean parameters.
- `GetRandomValue` is a parameter: a sequence of drawn cells, each within the generator's bounds.
- Game.SnakeGame.SpawnFood: requires some draw to miss the body when a placement is pending. This models the sampling loop exiting. The body covers at most 100 of the 300 cells, so a free cell always exists, but a generator whose draws never pick one would keep the source looping; the model does not capture such a draw sequence.
- Game.SnakeGame.HandleCollision: requires room to grow (length at least 1 and below 100) when the head is on the fruit. The source writes `snake[snakeLength]` unchecked, which would be out of bounds at capacity (and reads slot -1 at length 0). That undefined behaviour is not modelled. `UpdateGame` and `Tick` inherit the requirement.
- `frameCounter` is an unbounded integer, so wrap-around of the C `int` after 2^31 frames is not modelled.
- Only the speed of the head is ever read by the source. The speeds of the other segments are carried along unchanged.
