/**
 * The game's state machine at grid level, as pure transition functions on a
 * value of the whole session state.  Each function here is the meaning of
 * one handler of the program; the class in module Session performs the same
 * transitions field by field and is proved equal to these functions.
 */
module GameSpec {
  import opened Wrappers
  import opened Grid
  import opened Geometry
  import opened Keys

  /** The status line shown at the bottom of the canvas. */
  datatype Message =
    | GrabCargo       // the greeting after a (re)start
    | CargoAcquired   // cargo picked up at the stash
    | DropComplete    // cargo delivered, more runs to go
    | RunComplete     // the last delivery: the game is won
    | CashCollected   // the bonus pickup was collected
    | Smashed         // hit by a car, lives remain
    | Busted          // hit by a car, no lives remain

  /** The cash pickup's cell. */
  datatype Cash = Cash(row: int, col: int)

  /** A drop marker: its centre in pixels and its remaining lifetime in ms. */
  datatype DropFx = DropFx(x: int, y: int, ttl: int)

  /** The player's cell and every field of the game record that the game
      logic reads or writes (cars excepted: they are an input of CarHits). */
  datatype GameState = GameState(
    col: int, row: int,
    score: int, lives: int, deliveries: int,
    hasCargo: bool, isOver: bool, message: Message,
    lastMoveAt: real,
    cashPickup: Option<Cash>, cashRespawnAt: real,
    dropFx: seq<DropFx>)

  const START_LIVES: int := 3
  const STASH_BONUS: int := 25
  const DROP_BONUS: int := 200
  const CASH_BONUS: int := 120
  const DROP_FX_TTL: int := 500
  const MOVE_INTERVAL: real := 110.0
  const CASH_RESPAWN_DELAY: real := 3000.0
  const FIRST_CASH_DELAY: real := 1200.0
  /** The rows the cash pickup may appear on. */
  const CASH_ROWS: seq<int> := [1, 2, 3, 4, 5, 6, 7]

  /** What every reachable state satisfies. */
  predicate Inv(g: Grid, s: GameState) {
    && 0 <= s.lives <= START_LIVES
    && 0 <= s.deliveries <= DELIVERY_TARGET
    && 0 <= s.score
    && ((s.lives == 0 || s.deliveries >= DELIVERY_TARGET) ==> s.isOver)
    && (s.isOver ==> !s.hasCargo)
    && OnGrid(g, s.col, s.row)
    && (s.cashPickup.Some? ==> 1 <= s.cashPickup.value.row <= 7 && 0 <= s.cashPickup.value.col < g.cols)
  }

  /** The game record and player as written at load time, before the first restart. */
  const Loaded: GameState :=
    GameState(START_COL, START_ROW, 0, START_LIVES, 0, false, false, GrabCargo, 0.0, None, 0.0, [])

  // ---------------------------------------------------------------- restart

  /** Puts the player back on the start cell. */
  function ResetPlayer(s: GameState): GameState {
    s.(col := START_COL, row := START_ROW)
  }

  /** A full restart at time `now`: every field but the last-move time is
      reinitialised, and the first cash pickup is delayed by 1200 ms. */
  function Restart(s: GameState, now: real): GameState {
    ResetPlayer(s.(score := 0, lives := START_LIVES, deliveries := 0, hasCargo := false,
                   isOver := false, message := GrabCargo, dropFx := [],
                   cashPickup := None, cashRespawnAt := now + FIRST_CASH_DELAY))
  }

  /** The state once the page has loaded: the literal record, then a restart. */
  function Init(now: real): GameState {
    Restart(Loaded, now)
  }

  // ----------------------------------------------------------- tile actions

  /** Stash bay, without cargo: take the cargo and 25 points. */
  function PickUpCargo(s: GameState): GameState {
    if InStash(s.col, s.row) && !s.hasCargo then
      s.(hasCargo := true, score := s.score + STASH_BONUS, message := CargoAcquired)
    else s
  }

  /** Top row at a drop column, with cargo: deliver it for 200 points, add a
      drop marker on the tile, and end the game once five runs are done. */
  function Deliver(s: GameState): GameState {
    if s.row == 0 && s.hasCargo && IsDropCol(s.col) then
      var d := s.(hasCargo := false, deliveries := s.deliveries + 1, score := s.score + DROP_BONUS,
                  message := DropComplete,
                  dropFx := s.dropFx + [DropFx(s.col * TILE + TILE / 2, s.row * TILE + TILE / 2, DROP_FX_TTL)]);
      if d.deliveries >= DELIVERY_TARGET then d.(isOver := true, message := RunComplete) else d
    else s
  }

  /** On the cash pickup's cell: collect it for 120 points and arm a 3000 ms
      respawn delay from `now`. */
  function CollectCash(s: GameState, now: real): GameState {
    if s.cashPickup.Some? && s.col == s.cashPickup.value.col && s.row == s.cashPickup.value.row then
      s.(score := s.score + CASH_BONUS, message := CashCollected, cashPickup := None,
         cashRespawnAt := now + CASH_RESPAWN_DELAY)
    else s
  }

  /** The three tile checks, in program order, each on the result of the one before. */
  function EvaluateTileActions(s: GameState, now: real): GameState {
    CollectCash(Deliver(PickUpCargo(s)), now)
  }

  /** One clamped step followed by the tile checks. */
  function MovePlayer(g: Grid, s: GameState, dx: int, dy: int, now: real): GameState {
    var moved := s.(col := Clamp(s.col + dx, 0, g.cols - 1), row := Clamp(s.row + dy, 0, g.rows - 1));
    EvaluateTileActions(moved, now)
  }

  // ------------------------------------------------------------------- keys

  /** A key press at time `now`.  While the game is over only the restart key
      does anything.  Otherwise a key less than 110 ms after the last accepted
      one is dropped; any other key is accepted (its time recorded) and moves
      the player if it is a movement key. */
  function KeyDown(g: Grid, s: GameState, key: string, now: real): GameState {
    if s.isOver then
      if IsRestartKey(key) then Restart(s, now) else s
    else if now - s.lastMoveAt < MOVE_INTERVAL then s
    else
      var accepted := s.(lastMoveAt := now);
      match StepFor(key)
      case None => accepted
      case Some(st) => MovePlayer(g, accepted, st.dx, st.dy, now)
  }

  // ------------------------------------------------------------------- cash

  /** A uniform draw from [0, 1), the range of `Math.random()`. */
  predicate IsDraw(u: real) {
    0.0 <= u < 1.0
  }

  /** `Math.floor(u * n)` for a draw u: an index in [0, n). */
  function Pick(u: real, n: int): (i: int)
    requires IsDraw(u) && n > 0
    ensures 0 <= i < n
  {
    var r := u * n as real;
    assert 0.0 <= r < n as real by {
      assert u * n as real >= 0.0;
      assert (1.0 - u) * n as real > 0.0;
      assert (1.0 - u) * n as real == n as real - r;
    }
    r.Floor
  }

  /** Places a cash pickup when there is none, its respawn time has come and
      the game is running; the row and column come from the draws u and v. */
  function SpawnCash(g: Grid, s: GameState, now: real, u: real, v: real): GameState
    requires IsDraw(u) && IsDraw(v)
  {
    if s.cashPickup.Some? || now < s.cashRespawnAt || s.isOver then s
    else s.(cashPickup := Some(Cash(CASH_ROWS[Pick(u, |CASH_ROWS|)], Pick(v, g.cols))))
  }

  // -------------------------------------------------------------- collision

  /** The penalty for being hit: one life, the cargo, and back to the start
      cell; the game ends when no lives remain. */
  function Crash(s: GameState): GameState {
    var lives := s.lives - 1;
    var hit := ResetPlayer(s.(lives := lives, hasCargo := false,
                              message := if lives > 0 then Smashed else Busted));
    if lives <= 0 then hit.(isOver := true) else hit
  }

  /** The collision check of one frame: only on a road row of a running game,
      and only the first car that hits the player counts. */
  function CarHits(s: GameState, cars: seq<Car>): GameState {
    if !IsRoadRow(s.row) || s.isOver then s
    else match FirstHit(cars, s.col, s.row)
      case None => s
      case Some(_) => Crash(s)
  }

  // ----------------------------------------------------------------- events

  /** The events that drive the game: a key press, or an animation frame with
      its time, the two cash draws and the cars after they have moved. */
  datatype Event =
    | KeyPress(key: string, at: real)
    | Frame(at: real, u: real, v: real, cars: seq<Car>)

  predicate WellFormed(e: Event) {
    e.Frame? ==> IsDraw(e.u) && IsDraw(e.v)
  }

  /** One event: a key press goes to the key handler; a frame spawns cash and
      then checks for collisions. */
  function Step(g: Grid, s: GameState, e: Event): GameState
    requires WellFormed(e)
  {
    match e
    case KeyPress(key, at) => KeyDown(g, s, key, at)
    case Frame(at, u, v, cars) => CarHits(SpawnCash(g, s, at, u, v), cars)
  }

  /** A sequence of events, in order. */
  function Run(g: Grid, s: GameState, es: seq<Event>): GameState
    requires forall i :: 0 <= i < |es| ==> WellFormed(es[i])
    decreases |es|
  {
    if es == [] then s else Run(g, Step(g, s, es[0]), es[1..])
  }

  /** The event is a press of the restart key. */
  predicate IsRestart(e: Event) {
    e.KeyPress? && IsRestartKey(e.key)
  }
}
