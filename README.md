# Grid-level model of the cargo-run arcade game

This project models, in Dafny, the discrete core of a single-screen arcade
game (`game.js`). The player drives across lanes of traffic. They pick up
cargo at a stash bay on row 8 (columns 6 to 8) and deliver it to a drop zone
on the top row (columns 1, 7 and 13). Five deliveries win. Three crashes lose.
A cash pickup can appear on rows 1 to 7 for bonus points.

At grid level, the game is a deterministic state machine:

- The state is the player's cell, score, lives, deliveries, the cargo flag,
  the game-over flag, the status message, the time of the last accepted key,
  the optional cash pickup with its respawn time, and the list of drop markers.
- Module `GameSpec` gives this state as a value (`GameState`). Each handler of
  the program is a pure transition function on it: `KeyDown`, `MovePlayer`,
  `EvaluateTileActions` (stash pickup, then delivery or win, then cash, in that
  order), `SpawnCash`, `CarHits` and `Restart`. `Step` and `Run` drive the game
  with a sequence of key presses and animation frames.
- Module `Session` is the program's own form: a class `Game` whose fields are
  the game record and the player's cell. Its methods update the fields in
  place, in program order. Each method is proved to perform exactly the
  transition of its `GameSpec` namesake. Every method but `ResetPlayer` is also
  proved to keep the invariant `GameSpec.Inv`. `ResetPlayer` runs in the middle
  of a crash, before the game-over flag is set, so it promises only that the
  player is back on the grid.
- Module `GameProperties` proves what the program promises about these
  transitions: the clamping law, the two gates of the key handler, the exact
  effects of each tile action, the cash spawn range, the single-penalty
  collision rule and restart idempotence. It also shows that every run of events
  keeps the invariant: lives in 0..3, deliveries in 0..5, the game is over once
  either runs out, and the player is on the grid.
- Module `Geometry` holds the pixel overlap test behind the collision check,
  using real-valued boxes and TILE = 64.
- Module `Keys` holds key-name classification (lower-casing, then arrows or WASD).
- Module `Grid` holds the static layout.
- Module `Music` models the step selection of the music sequencer, a counter
  that picks note indices.

The grid size comes from a canvas that is not fixed here. The model takes it as
a value `Grid` with at least 14 columns and 10 rows, so that drop column 13, the
stash row 8 and the start cell (7, 9) are on the grid.

Inputs the program obtains from its environment are parameters:

- the clock reading `performance.now()` (a real number of milliseconds);
- the two `Math.random()` draws of the cash spawn (reals in [0, 1));
- the cars of a frame, already moved by the traffic update.

Nine "ArrowUp" presses from the start cell do not reach row 0 without cargo.
The start column 7 lies inside the stash bay, so the first press picks up the
cargo. Column 7 is also a drop column, so the ninth press delivers.
`StartRun.NineUpsDeliver` proves the outcome: one delivery and 225 points.

## Model

| member | source | states |
|---|---|---|
| `Grid.Clamp` | game.js:304-306 | the result lies in [lo, hi]; it is v when v is in range, lo below the range and hi above it |
| `Grid.IsRoadRow` | game.js:18 | definition: rows 1, 2, 4, 5 and 7 carry traffic; used by `GameSpec.CarHits`, `Session.Game.CheckCarHits`, `GameProperties.CarHitsOffRoad` and `GameProperties.CarHitsOnRoad` |
| `Grid.IsSafeRow` | game.js:19 | definition: rows 0, 3, 6, 8 and 9 are safe; used by `Grid.RowsPartition` and `Grid.LandmarksOnGrid`, which show it is the complement of the road rows on a ten-row grid |
| `Grid.IsDropCol` | game.js:21 | definition: columns 1, 7 and 13 are drop zones; used by `GameSpec.Deliver` and `GameProperties.Delivery` |
| `Grid.InStash` | game.js:22 | definition: row 8, columns 6 to 8 are the stash bay; used by `GameSpec.PickUpCargo` and `GameProperties.StashPickup` |
| `Grid.RowsPartition` | game.js:18-19 | each of rows 0..9 is exactly one of road row or safe row |
| `Grid.LandmarksOnGrid` | game.js:14-22 | on any grid of at least 14×10, the start cell, the stash bay and the three drop zones are on the grid, and the start row is safe |
| `Keys.LowerChar` | game.js:206 | ASCII capitals map to their lower-case letter (code + 32); every other character is unchanged; no capital remains |
| `Keys.Lower` | game.js:206 | lower-casing keeps the length and lower-cases each character in place |
| `Keys.LowerIdempotent` | game.js:196-206 | lower-casing twice equals lower-casing once |
| `Keys.StepForName` | game.js:207-210 | a recognised key name gives a unit step along exactly one axis; exactly the eight movement names give a step |
| `Keys.StepForIgnoresCase` | game.js:206-210 | the step asked for does not depend on the key's case |
| `Keys.UpKeys` | game.js:207 | "ArrowUp", "w" and "W" all step (0, -1) |
| `Keys.DownKeys` | game.js:208 | "ArrowDown", "s" and "S" all step (0, 1) |
| `Keys.LeftKeys` | game.js:209 | "ArrowLeft", "a" and "A" all step (-1, 0) |
| `Keys.RightKeys` | game.js:210 | "ArrowRight", "d" and "D" all step (1, 0) |
| `Keys.RestartKeyTable` | game.js:196 | "r" and "R" are the restart key; no movement key is |
| `Geometry.PlayerBox` | game.js:161-164 | the player's box has positive size and lies strictly inside its own tile |
| `Geometry.LaneBox` | game.js:138-145 | a lane car's box lies strictly inside its own row's band |
| `Geometry.IntersectsIffCommonPoint` | game.js:295-302 | for boxes of positive size, the overlap test holds iff some point is inside both boxes |
| `Geometry.IntersectsSymmetric` | game.js:295-302 | overlap does not depend on argument order |
| `Geometry.LaneCarHitIffSameRowAndHorizontalOverlap` | game.js:281-283 | a lane car in another row never overlaps the player; in the player's row it overlaps iff the horizontal spans overlap |
| `Geometry.FirstHitFrom` | game.js:281-292 | the index returned is the first car at or after `from` that is in the player's row and overlaps the player; none is returned iff no such car exists |
| `Geometry.FirstHit` | game.js:281-292 | definition: the first colliding car from index 0; used by `GameSpec.CarHits` and `Session.Game.CheckCarHits`, whose loop is proved to find it |
| `GameSpec.Pick` | game.js:263-264 | `floor(u * n)` of a draw u in [0, 1) is an index in [0, n) |
| `GameSpec.ResetPlayer` | game.js:155-159 | definition: the player back on (7, 9); used by restart and crash |
| `GameSpec.Restart` | game.js:166-179 | definition of the full restart; its properties are proved in `GameProperties.RestartValues`, `RestartIdempotent` and `RestartForgets` |
| `GameSpec.Init` | game.js:24-45 | definition: the load-time record followed by the restart of game.js:460; proved valid in `GameProperties.InitValid` |
| `GameSpec.Inv` | game.js:24-45 | definition of the invariant over the game record and player: lives 0..3, deliveries 0..5, score non-negative, over once lives or runs run out, no cargo once over, player and cash on the grid; used by `GameProperties.RunPreservesInv` and the `*PreservesInv` lemmas |
| `GameSpec.PickUpCargo` | game.js:223-228 | definition of the stash check; its properties are proved in `GameProperties.StashPickup` |
| `GameSpec.Deliver` | game.js:230-245 | definition of the delivery and win check; its properties are proved in `GameProperties.Delivery` |
| `GameSpec.CollectCash` | game.js:247-257 | definition of the cash check; its properties are proved in `GameProperties.CashCollection` |
| `GameSpec.EvaluateTileActions` | game.js:222-258 | definition: the three checks composed in program order; properties in `GameProperties.TileActionsKeepCell` and `TileActionsPreserveInv` |
| `GameSpec.MovePlayer` | game.js:213-220 | definition: the clamped step, then the tile checks; properties in `GameProperties.MoveStaysOnGrid` and `MovePreservesInv` |
| `GameSpec.KeyDown` | game.js:188-211 | definition of the key handler; properties in `GameProperties.KeyDownWhileOver`, `KeyDownThrottled`, `KeyDownAccepted` and `KeyDownPreservesInv` |
| `GameSpec.SpawnCash` | game.js:260-266 | definition of the cash spawn; properties in `GameProperties.SpawnNoOp`, `SpawnPlaces`, `SpawnReachesEveryCell` and `SpawnPreservesInv` |
| `GameSpec.Crash` | game.js:284-290 | definition of the collision penalty; its effect is proved in `GameProperties.CarHitsOnRoad` |
| `GameSpec.CarHits` | game.js:279-293 | definition of the collision check; properties in `GameProperties.CarHitsOffRoad`, `CarHitsOnRoad`, `CarHitsIdempotent` and `CarHitsPreservesInv` |
| `GameSpec.Step` | game.js:439-448 | definition: a key press goes to the key handler; a frame spawns cash, then checks collisions; properties in `GameProperties.StepPreservesInv`, `OverIsTerminal`, `StepMonotone` and `CargoOnlyFromStash` |
| `GameSpec.Run` | game.js:437-461 | definition: events applied in order; properties in `GameProperties.RunPreservesInv` and `OverStaysOver` |
| `Geometry.Intersects` | game.js:295-302 | definition of the overlap test; properties in `Geometry.IntersectsIffCommonPoint` and `IntersectsSymmetric` |
| `Geometry.HitBy` | game.js:282-283 | definition: same row and overlapping boxes; properties in `Geometry.LaneCarHitIffSameRowAndHorizontalOverlap` and `FirstHitFrom` |
| `Keys.StepFor` | game.js:206-210 | definition: the step of the lower-cased key name; properties in `Keys.StepForName`, `StepForIgnoresCase` and the four key-table lemmas |
| `Keys.IsRestartKey` | game.js:196 | definition of the restart-key test; properties in `Keys.RestartKeyTable` |
| `GameProperties.TileActionsKeepCell` | game.js:222-258 | the tile checks never move the player |
| `GameProperties.MoveStaysOnGrid` | game.js:213-217 | after any step the player is on the grid; an in-range target is taken as is; an out-of-range one clamps to the nearest edge (no wrap) |
| `GameProperties.KeyDownWhileOver` | game.js:195-200 | while over, the restart key gives a full restart and every other key leaves the state unchanged |
| `GameProperties.KeyDownThrottled` | game.js:202-203 | while running, a key less than 110 ms after the last accepted one changes nothing |
| `GameProperties.KeyDownAccepted` | game.js:202-211 | a key that passes both gates sets the last-move time to now, even a non-movement key, which changes nothing else; a movement key then makes its step |
| `GameProperties.SecondKeyWithin50msDropped` | game.js:202-204 | of two keys 50 ms apart, the second leaves the state the first produced (barring a restart after a winning move) |
| `GameProperties.StashPickup` | game.js:223-228 | cargo is gained iff the player is in the stash bay without cargo; that adds exactly 25 points and changes only the message besides; with cargo held nothing changes |
| `GameProperties.Delivery` | game.js:230-245 | on a drop zone with cargo: cargo cleared, deliveries +1, score +200, exactly one marker appended, game won with the win message iff deliveries reach 5, and the whole new state given with every other field unchanged; otherwise nothing changes |
| `GameProperties.CashCollection` | game.js:247-257 | on the pickup's cell: score +120, pickup cleared, respawn at now + 3000; elsewhere nothing changes |
| `GameProperties.TopRowWithoutCargo` | game.js:230-257 | in an invariant state, reaching the top row without cargo triggers nothing |
| `GameProperties.SpawnNoOp` | game.js:260-261 | no spawn while a pickup exists, before the respawn time, or while over |
| `GameProperties.SpawnPlaces` | game.js:260-266 | otherwise a pickup appears on a row in 1..7 and a column in [0, COLS-1], and nothing else changes |
| `GameProperties.SpawnReachesEveryCell` | game.js:262-265 | every cell of rows 1..7 is produced by some pair of draws |
| `GameProperties.CarHitsOffRoad` | game.js:280 | off the road rows, or once over, the collision check changes nothing |
| `GameProperties.CarHitsOnRoad` | game.js:279-293 | on a road row while running, if some car in the row overlaps: exactly one life lost, cargo cleared, player at (7, 9), over iff lives ≤ 0, with the matching message, and the whole new state given with every other field unchanged; if none overlaps, nothing changes |
| `GameProperties.CarHitsIdempotent` | game.js:284-290 | after a hit, a second check in the same state changes nothing (at most one penalty) |
| `GameProperties.RestartValues` | game.js:166-179 | restart gives score 0, lives 3, deliveries 0, no cargo, not over, no markers, no pickup, respawn at now + 1200 and the start cell; the last-move time is kept; the result satisfies the invariant |
| `GameProperties.RestartIdempotent` | game.js:166-177 | restarting twice equals restarting once |
| `GameProperties.RestartForgets` | game.js:166-177 | the restarted state depends on nothing of the old state but the last-move time |
| `GameProperties.InitValid` | game.js:24-45 | the loaded and restarted state satisfies the invariant |
| `GameProperties.TileActionsPreserveInv` | game.js:222-258 | the tile checks keep the invariant in a running game |
| `GameProperties.MovePreservesInv` | game.js:213-220 | a step keeps the invariant in a running game |
| `GameProperties.KeyDownPreservesInv` | game.js:188-211 | the key handler keeps the invariant |
| `GameProperties.SpawnPreservesInv` | game.js:260-266 | the cash spawn keeps the invariant |
| `GameProperties.CarHitsPreservesInv` | game.js:279-293 | the collision check keeps the invariant |
| `GameProperties.StepPreservesInv` | game.js:439-448 | one key press or one frame keeps the invariant |
| `GameProperties.RunPreservesInv` | game.js:437-461 | every sequence of events keeps the invariant, so lives stay in 0..3, deliveries in 0..5, the game is over once either runs out, and the player stays on the grid |
| `GameProperties.OverIsTerminal` | game.js:195-200 | once over, every event except the restart key leaves the state unchanged |
| `GameProperties.OverStaysOver` | game.js:195-200 | once over, any run of events without the restart key leaves the state unchanged |
| `GameProperties.StepMonotone` | game.js:222-293 | short of a restart, score never falls, deliveries rise by at most one, lives fall by at most one |
| `GameProperties.CargoOnlyFromStash` | game.js:223-228 | in an invariant state, cargo is only gained by a key press that reaches the stash bay, for exactly 25 points |
| `StartRun.UpsClimb` | game.js:207-228 | from the loaded state, k "ArrowUp" presses 110 ms apart (k = 1..8) put the player on row 9 - k with the stash's cargo and 25 points |
| `StartRun.LastUpDelivers` | game.js:230-245 | from row 1 of column 7 with cargo, one more "ArrowUp" delivers |
| `StartRun.NineUpsDeliver` | game.js:155-245 | nine "ArrowUp" presses from the start cell end on row 0 with one delivery, 225 points and one marker |
| `Session.Game.constructor` | game.js:24-45 | the object starts as the load-time record, restarted at `now`, and is valid |
| `Session.Game.Valid` | game.js:24-45 | definition: `GameSpec.Inv` of the object's fields; ensured by the constructor and by every method of `Session.Game` but `ResetPlayer` |
| `Session.Game.ResetPlayer` | game.js:155-159 | the player goes to (7, 9), which is on the grid; nothing else changes |
| `Session.Game.Restart` | game.js:166-179 | the fields become `GameSpec.Restart` of the old fields |
| `Session.Game.EvaluateTileActions` | game.js:222-258 | the three in-place checks give `GameSpec.EvaluateTileActions` of the old fields and keep the invariant |
| `Session.Game.MovePlayer` | game.js:213-220 | the clamped step and tile checks give `GameSpec.MovePlayer` of the old fields |
| `Session.Game.KeyDown` | game.js:188-211 | the handler gives `GameSpec.KeyDown` of the old fields and keeps the invariant |
| `Session.Game.SpawnCashIfNeeded` | game.js:260-266 | the fields become `GameSpec.SpawnCash` of the old fields for the given draws |
| `Session.Game.CheckCarHits` | game.js:279-293 | the in-order scan with early return gives `GameSpec.CarHits` of the old fields, so only the first overlapping car counts |
| `Music.TickTones` | game.js:79-93 | each tick plays the bass at note step mod 8; it adds the lead iff the step is even and the octave lead iff the step is 3 mod 4; all tones share that note index |
| `Music.LeadAndOctaveExclusive` | game.js:86-91 | lead and octave lead never sound together; the bass plays alone exactly on steps 1 mod 4 |
| `Music.TickTonesPeriodic` | game.js:81-82 | the tones repeat every eight steps |
| `Music.MusicLoop.constructor` | game.js:48-57 | the step counter starts at 0 |
| `Music.MusicLoop.Tick` | game.js:73-94 | a tick returns the tones of the current step and increments the step by one |

## Left out

- Rendering: all `draw*` functions, including the expiry of drop markers inside `drawDropEffects`. That expiry is float time arithmetic done while drawing, so in the model the marker list only grows until a restart.
- Audio: `MusicLoop.start`, `playTone`, `toggleMute`, gain ramps and frequencies are calls into the browser's audio API. The tick's guard for a missing audio context is left out too: the timer exists only after the context does. Tones are modelled as note indices.
- The lazy `music.start()` call and `preventDefault` in the key handler: audio start-up and browser event plumbing.
- HUD updates (`updateHud`) and event-listener wiring: display and input plumbing.
- Traffic: `buildTraffic`, `laneCars` spacing and `updateCars` with its random re-entry jitter, and the frame's 40 ms `dt` clamp. These are float motion driven by `Math.random`. The cars of a frame are an input of `CarHits`, and restart does not rebuild them.
- The grid size: the program divides the canvas size by 64 to get the column and row counts, which need not be whole numbers. The model assumes a canvas whose sides are multiples of 64, so both counts are whole. With a fractional count, the clamp would stop at a fractional edge and the cash column `floor(u * COLS)` could lie beyond the player's last column.
- Floating point: pixel positions and times are exact reals, so IEEE rounding of the 0.2/0.14/0.58/0.72 tile fractions and of millisecond timestamps is not modelled.
- A key press that steps onto the cash pickup reads the clock twice (game.js:202, then 255); the model uses one reading `now` for both. A restart-key press reads it once, in the restart (game.js:175).
- `Keys.Lower`: models `toLowerCase` for ASCII only; non-ASCII case mappings are not modelled.
- `Music.MusicLoop.Tick`: the step counter is an unbounded natural number; the loss of integer precision of a JavaScript number after 2^53 ticks is not modelled.
