/**
 * Properties of the game's state machine: what each handler does, what it
 * leaves alone, the invariant every handler keeps, and facts about whole
 * runs of events.
 */
module GameProperties {
  import opened Wrappers
  import opened Grid
  import opened Geometry
  import opened Keys
  import opened GameSpec

  // --------------------------------------------------------------- movement

  /** Tile checks never move the player. */
  lemma TileActionsKeepCell(s: GameState, now: real)
    ensures EvaluateTileActions(s, now).col == s.col
    ensures EvaluateTileActions(s, now).row == s.row
  {
  }

  /** A step lands on the grid whatever the start cell and delta: an in-range
      target is taken as is, an out-of-range one is pulled to the nearest edge. */
  lemma MoveStaysOnGrid(g: Grid, s: GameState, dx: int, dy: int, now: real)
    ensures OnGrid(g, MovePlayer(g, s, dx, dy, now).col, MovePlayer(g, s, dx, dy, now).row)
    ensures 0 <= s.col + dx < g.cols ==> MovePlayer(g, s, dx, dy, now).col == s.col + dx
    ensures s.col + dx < 0 ==> MovePlayer(g, s, dx, dy, now).col == 0
    ensures s.col + dx >= g.cols ==> MovePlayer(g, s, dx, dy, now).col == g.cols - 1
    ensures 0 <= s.row + dy < g.rows ==> MovePlayer(g, s, dx, dy, now).row == s.row + dy
    ensures s.row + dy < 0 ==> MovePlayer(g, s, dx, dy, now).row == 0
    ensures s.row + dy >= g.rows ==> MovePlayer(g, s, dx, dy, now).row == g.rows - 1
  {
  }

  // ------------------------------------------------------------ key handler

  /** While the game is over, the restart key restarts and every other key
      leaves the state unchanged. */
  lemma KeyDownWhileOver(g: Grid, s: GameState, key: string, now: real)
    requires s.isOver
    ensures IsRestartKey(key) ==> KeyDown(g, s, key, now) == Restart(s, now)
    ensures !IsRestartKey(key) ==> KeyDown(g, s, key, now) == s
  {
  }

  /** A key less than 110 ms after the last accepted one changes nothing. */
  lemma KeyDownThrottled(g: Grid, s: GameState, key: string, now: real)
    requires !s.isOver && now - s.lastMoveAt < MOVE_INTERVAL
    ensures KeyDown(g, s, key, now) == s
  {
  }

  /** A key that passes both gates records its time, even when it is not a
      movement key; a non-movement key changes nothing else. */
  lemma KeyDownAccepted(g: Grid, s: GameState, key: string, now: real)
    requires !s.isOver && now - s.lastMoveAt >= MOVE_INTERVAL
    ensures KeyDown(g, s, key, now).lastMoveAt == now
    ensures StepFor(key).None? ==> KeyDown(g, s, key, now) == s.(lastMoveAt := now)
    ensures StepFor(key).Some? ==>
      KeyDown(g, s, key, now) == MovePlayer(g, s.(lastMoveAt := now), StepFor(key).value.dx, StepFor(key).value.dy, now)
  {
  }

  /** Of two key presses 50 ms apart, the second one is dropped. */
  lemma SecondKeyWithin50msDropped(g: Grid, s: GameState, k1: string, k2: string, t: real)
    requires !s.isOver && t - s.lastMoveAt >= MOVE_INTERVAL
    ensures var s1 := KeyDown(g, s, k1, t);
      s1.lastMoveAt == t &&
      (!IsRestartKey(k2) || !s1.isOver ==> KeyDown(g, s1, k2, t + 50.0) == s1)
  {
  }

  // ----------------------------------------------------------- tile actions

  /** Cargo is taken exactly when the player stands in the stash bay without
      cargo; taking it adds exactly 25 points and changes nothing else but the
      message. */
  lemma StashPickup(s: GameState)
    ensures (PickUpCargo(s).hasCargo && !s.hasCargo) <==> (InStash(s.col, s.row) && !s.hasCargo)
    ensures InStash(s.col, s.row) && !s.hasCargo ==>
      PickUpCargo(s) == s.(hasCargo := true, score := s.score + STASH_BONUS, message := CargoAcquired)
    ensures s.hasCargo || !InStash(s.col, s.row) ==> PickUpCargo(s) == s
  {
  }

  /** A delivery on a drop zone with cargo: the cargo goes, one more run and
      200 points are counted, exactly one drop marker is appended, and the game
      is won (and only then) when the fifth run is done.  Without cargo, or off
      the drop zones, nothing happens.  The second clause gives the whole new
      state: every other field is unchanged. */
  lemma Delivery(s: GameState)
    ensures s.row == 0 && IsDropCol(s.col) && s.hasCargo ==>
      var d := Deliver(s);
      && !d.hasCargo
      && d.deliveries == s.deliveries + 1
      && d.score == s.score + DROP_BONUS
      && d.dropFx == s.dropFx + [DropFx(s.col * TILE + TILE / 2, TILE / 2, DROP_FX_TTL)]
      && (d.deliveries >= DELIVERY_TARGET ==> d.isOver && d.message == RunComplete)
      && (d.deliveries < DELIVERY_TARGET ==> d.isOver == s.isOver && d.message == DropComplete)
      && d.lives == s.lives && d.col == s.col && d.row == s.row && d.cashPickup == s.cashPickup
    ensures s.row == 0 && IsDropCol(s.col) && s.hasCargo ==>
      var win := s.deliveries + 1 >= DELIVERY_TARGET;
      Deliver(s) == s.(hasCargo := false, deliveries := s.deliveries + 1,
                       score := s.score + DROP_BONUS,
                       dropFx := s.dropFx + [DropFx(s.col * TILE + TILE / 2, TILE / 2, DROP_FX_TTL)],
                       isOver := win || s.isOver,
                       message := if win then RunComplete else DropComplete)
    ensures !(s.row == 0 && IsDropCol(s.col) && s.hasCargo) ==> Deliver(s) == s
  {
  }

  /** Standing on the cash pickup collects it: 120 points, the pickup is gone
      and the next one may appear 3000 ms later.  Elsewhere nothing happens. */
  lemma CashCollection(s: GameState, now: real)
    ensures s.cashPickup == Some(Cash(s.row, s.col)) ==>
      CollectCash(s, now) == s.(score := s.score + CASH_BONUS, message := CashCollected,
                                cashPickup := None, cashRespawnAt := now + CASH_RESPAWN_DELAY)
    ensures s.cashPickup != Some(Cash(s.row, s.col)) ==> CollectCash(s, now) == s
  {
  }

  /** On the top row without cargo the tile checks change nothing, unless a
      cash pickup lies there; an invariant state has none on the top row. */
  lemma TopRowWithoutCargo(g: Grid, s: GameState, now: real)
    requires Inv(g, s) && s.row == 0 && !s.hasCargo
    ensures EvaluateTileActions(s, now) == s
  {
  }

  // ------------------------------------------------------------------- cash

  /** No pickup is placed while one exists, before the respawn time, or
      while the game is over. */
  lemma SpawnNoOp(g: Grid, s: GameState, now: real, u: real, v: real)
    requires IsDraw(u) && IsDraw(v)
    requires s.cashPickup.Some? || now < s.cashRespawnAt || s.isOver
    ensures SpawnCash(g, s, now, u, v) == s
  {
  }

  /** Otherwise a pickup is placed on a row from 1 to 7 and a column of the
      grid, and nothing else changes. */
  lemma SpawnPlaces(g: Grid, s: GameState, now: real, u: real, v: real)
    requires IsDraw(u) && IsDraw(v)
    requires s.cashPickup.None? && now >= s.cashRespawnAt && !s.isOver
    ensures var r := SpawnCash(g, s, now, u, v);
      && r.cashPickup.Some?
      && 1 <= r.cashPickup.value.row <= 7
      && 0 <= r.cashPickup.value.col < g.cols
      && r == s.(cashPickup := r.cashPickup)
  {
  }

  /** Every cell of rows 1 to 7 can receive the pickup: some pair of draws
      places it there. */
  lemma SpawnReachesEveryCell(g: Grid, s: GameState, now: real, row: int, col: int)
    requires s.cashPickup.None? && now >= s.cashRespawnAt && !s.isOver
    requires 1 <= row <= 7 && 0 <= col < g.cols
    ensures exists u, v | IsDraw(u) && IsDraw(v) :: SpawnCash(g, s, now, u, v).cashPickup == Some(Cash(row, col))
  {
    var n := g.cols as real;
    var u := (row - 1) as real / 7.0;
    var v := col as real / n;
    assert u * 7.0 == (row - 1) as real;
    assert v * n == col as real;
    assert IsDraw(v) by {
      assert col as real < n;
    }
    assert Pick(u, |CASH_ROWS|) == row - 1;
    assert Pick(v, g.cols) == col;
    assert SpawnCash(g, s, now, u, v).cashPickup == Some(Cash(row, col));
  }

  // -------------------------------------------------------------- collision

  /** Some car in the list hits the player at (col, row). */
  ghost predicate AnyHit(cars: seq<Car>, col: int, row: int) {
    exists j :: 0 <= j < |cars| && HitBy(cars[j], col, row)
  }

  /** Off the road rows, or once the game is over, nothing can hit the player. */
  lemma CarHitsOffRoad(s: GameState, cars: seq<Car>)
    requires !IsRoadRow(s.row) || s.isOver
    ensures CarHits(s, cars) == s
  {
  }

  /** On a road row of a running game: if some car in the player's row
      overlaps the player, exactly one life is lost, the cargo is dropped, the
      player goes back to the start cell, and the game ends exactly when no
      lives remain, with the matching message; every other field is unchanged.
      If none does, nothing changes. */
  lemma CarHitsOnRoad(s: GameState, cars: seq<Car>)
    requires IsRoadRow(s.row) && !s.isOver
    ensures AnyHit(cars, s.col, s.row) ==>
      var r := CarHits(s, cars);
      && r.lives == s.lives - 1
      && !r.hasCargo
      && r.col == START_COL && r.row == START_ROW
      && (r.isOver <==> r.lives <= 0)
      && r.message == (if r.lives > 0 then Smashed else Busted)
      && r.score == s.score && r.deliveries == s.deliveries && r.dropFx == s.dropFx
      && r.cashPickup == s.cashPickup && r.lastMoveAt == s.lastMoveAt
    ensures AnyHit(cars, s.col, s.row) ==>
      CarHits(s, cars) == s.(lives := s.lives - 1, hasCargo := false,
                             col := START_COL, row := START_ROW,
                             isOver := s.lives - 1 <= 0,
                             message := if s.lives - 1 > 0 then Smashed else Busted)
    ensures !AnyHit(cars, s.col, s.row) ==> CarHits(s, cars) == s
  {
    if AnyHit(cars, s.col, s.row) {
      var j :| 0 <= j < |cars| && HitBy(cars[j], s.col, s.row);
      assert FirstHit(cars, s.col, s.row).Some?;
    }
  }

  /** A second collision check straight after the first changes nothing: a hit
      moves the player to the start cell, which is not on a road. */
  lemma CarHitsIdempotent(s: GameState, cars: seq<Car>, later: seq<Car>)
    ensures CarHits(s, cars) != s ==> CarHits(CarHits(s, cars), later) == CarHits(s, cars)
  {
  }

  // ---------------------------------------------------------------- restart

  /** A restart gives the initial values, whatever came before, except for the
      time of the last accepted key, which it leaves alone. */
  lemma RestartValues(g: Grid, s: GameState, now: real)
    ensures var r := Restart(s, now);
      && r.score == 0 && r.lives == START_LIVES && r.deliveries == 0
      && !r.hasCargo && !r.isOver && r.message == GrabCargo && r.dropFx == []
      && r.cashPickup.None? && r.cashRespawnAt == now + FIRST_CASH_DELAY
      && r.col == START_COL && r.row == START_ROW && r.lastMoveAt == s.lastMoveAt
    ensures Inv(g, Restart(s, now))
  {
  }

  /** Restarting twice is restarting once. */
  lemma RestartIdempotent(s: GameState, now: real)
    ensures Restart(Restart(s, now), now) == Restart(s, now)
  {
  }

  /** Nothing carries over a restart but the last-move time. */
  lemma RestartForgets(s: GameState, t: GameState, now: real)
    requires s.lastMoveAt == t.lastMoveAt
    ensures Restart(s, now) == Restart(t, now)
  {
  }

  // -------------------------------------------------------------- invariant

  /** The state after loading satisfies the invariant. */
  lemma InitValid(g: Grid, now: real)
    ensures Inv(g, Init(now))
  {
  }

  /** Tile checks keep the invariant in a running game (the only place they
      are reached from). */
  lemma TileActionsPreserveInv(g: Grid, s: GameState, now: real)
    requires Inv(g, s) && !s.isOver
    ensures Inv(g, EvaluateTileActions(s, now))
  {
  }

  /** A step keeps the invariant in a running game. */
  lemma MovePreservesInv(g: Grid, s: GameState, dx: int, dy: int, now: real)
    requires Inv(g, s) && !s.isOver
    ensures Inv(g, MovePlayer(g, s, dx, dy, now))
  {
    MoveStaysOnGrid(g, s, dx, dy, now);
    var moved := s.(col := Clamp(s.col + dx, 0, g.cols - 1), row := Clamp(s.row + dy, 0, g.rows - 1));
    TileActionsPreserveInv(g, moved, now);
  }

  /** A key press keeps the invariant, whether it restarts, is dropped or moves. */
  lemma KeyDownPreservesInv(g: Grid, s: GameState, key: string, now: real)
    requires Inv(g, s)
    ensures Inv(g, KeyDown(g, s, key, now))
  {
    if s.isOver {
      RestartValues(g, s, now);
    } else if now - s.lastMoveAt >= MOVE_INTERVAL {
      var accepted := s.(lastMoveAt := now);
      match StepFor(key)
      case None =>
      case Some(st) => MovePreservesInv(g, accepted, st.dx, st.dy, now);
    }
  }

  /** Placing cash with draws in [0, 1) keeps the invariant: the pickup lands on a road row of the grid. */
  lemma SpawnPreservesInv(g: Grid, s: GameState, now: real, u: real, v: real)
    requires Inv(g, s) && IsDraw(u) && IsDraw(v)
    ensures Inv(g, SpawnCash(g, s, now, u, v))
  {
  }

  /** A collision check keeps the invariant: a crash never takes lives below zero and ends the game at zero. */
  lemma CarHitsPreservesInv(g: Grid, s: GameState, cars: seq<Car>)
    requires Inv(g, s)
    ensures Inv(g, CarHits(s, cars))
  {
  }

  /** Every well-formed event, key press or frame, keeps the invariant. */
  lemma StepPreservesInv(g: Grid, s: GameState, e: Event)
    requires Inv(g, s) && WellFormed(e)
    ensures Inv(g, Step(g, s, e))
  {
    match e
    case KeyPress(key, at) => KeyDownPreservesInv(g, s, key, at);
    case Frame(at, u, v, cars) =>
      SpawnPreservesInv(g, s, at, u, v);
      CarHitsPreservesInv(g, SpawnCash(g, s, at, u, v), cars);
  }

  /** Every run of events from an invariant state ends in one: lives stay in
      0..3, deliveries in 0..5, the game is over once either runs out, and the
      player never leaves the grid. */
  lemma {:induction false} RunPreservesInv(g: Grid, s: GameState, es: seq<Event>)
    requires Inv(g, s)
    requires forall i :: 0 <= i < |es| ==> WellFormed(es[i])
    ensures Inv(g, Run(g, s, es))
    decreases |es|
  {
    if es != [] {
      StepPreservesInv(g, s, es[0]);
      RunPreservesInv(g, Step(g, s, es[0]), es[1..]);
    }
  }

  // ------------------------------------------------------ game-over, progress

  /** Once over, the game stays exactly as it is until the restart key. */
  lemma OverIsTerminal(g: Grid, s: GameState, e: Event)
    requires s.isOver && WellFormed(e) && !IsRestart(e)
    ensures Step(g, s, e) == s
  {
  }

  /** Once over, a run of events without the restart key leaves the state
      exactly as it is. */
  lemma {:induction false} OverStaysOver(g: Grid, s: GameState, es: seq<Event>)
    requires s.isOver
    requires forall i :: 0 <= i < |es| ==> WellFormed(es[i]) && !IsRestart(es[i])
    ensures Run(g, s, es) == s
    decreases |es|
  {
    if es != [] {
      OverIsTerminal(g, s, es[0]);
      OverStaysOver(g, s, es[1..]);
    }
  }

  /** Short of a restart, an event never takes back points or runs and never
      gives back a life; runs rise and lives fall by at most one. */
  lemma StepMonotone(g: Grid, s: GameState, e: Event)
    requires WellFormed(e) && !(s.isOver && IsRestart(e))
    ensures var r := Step(g, s, e);
      && s.score <= r.score
      && s.deliveries <= r.deliveries <= s.deliveries + 1
      && s.lives - 1 <= r.lives <= s.lives
  {
  }

  /** Cargo is only ever gained by a key press that reaches the stash bay,
      and gaining it is worth exactly 25 points. */
  lemma CargoOnlyFromStash(g: Grid, s: GameState, e: Event)
    requires Inv(g, s) && WellFormed(e)
    requires !s.hasCargo && Step(g, s, e).hasCargo
    ensures e.KeyPress?
    ensures InStash(Step(g, s, e).col, Step(g, s, e).row)
    ensures Step(g, s, e).score == s.score + STASH_BONUS
  {
  }
}

/** A worked run from the start cell: nine "ArrowUp" presses 110 ms apart
    pass the stash bay on row 8 (the start column 7 is inside it) and end on
    the drop zone of column 7, so the run delivers once. */
module StartRun {
  import opened Wrappers
  import opened Grid
  import opened Keys
  import opened GameSpec

  /** The key presses of the run: "ArrowUp" at 110, 220, ..., 110·n ms. */
  function Ups(n: nat): (es: seq<Event>)
    ensures |es| == n
    ensures forall i :: 0 <= i < n ==> es[i] == KeyPress("ArrowUp", 110.0 * (i + 1) as real)
  {
    if n == 0 then [] else Ups(n - 1) + [KeyPress("ArrowUp", 110.0 * n as real)]
  }

  /** Running es and then one more event e. */
  lemma {:induction false} RunSnoc(g: Grid, s: GameState, es: seq<Event>, e: Event)
    requires forall i :: 0 <= i < |es| ==> WellFormed(es[i])
    requires WellFormed(e)
    ensures Run(g, s, es + [e]) == Step(g, Run(g, s, es), e)
    decreases |es|
  {
    if es == [] {
      assert [e][1..] == [];
    } else {
      assert (es + [e])[1..] == es[1..] + [e];
      RunSnoc(g, Step(g, s, es[0]), es[1..], e);
    }
  }

  /** After k of the presses (1 <= k <= 8) the player is on row 9 - k of
      column 7 and holds the stash's cargo, with 25 points. */
  lemma {:induction false} UpsClimb(g: Grid, k: nat)
    requires 1 <= k <= 8
    ensures Run(g, Init(0.0), Ups(k)) ==
      Init(0.0).(row := START_ROW - k, hasCargo := true, score := STASH_BONUS,
                 message := CargoAcquired, lastMoveAt := 110.0 * k as real)
  {
    UpKeys();
    assert Ups(k) == Ups(k - 1) + [KeyPress("ArrowUp", 110.0 * k as real)];
    RunSnoc(g, Init(0.0), Ups(k - 1), KeyPress("ArrowUp", 110.0 * k as real));
    if k > 1 {
      UpsClimb(g, k - 1);
    }
  }

  /** From row 1 of column 7 with the cargo, one more "ArrowUp" delivers. */
  lemma LastUpDelivers(g: Grid, s: GameState, now: real)
    requires s == Init(0.0).(row := 1, hasCargo := true, score := STASH_BONUS,
                             message := CargoAcquired, lastMoveAt := now - 110.0)
    ensures var r := KeyDown(g, s, "ArrowUp", now);
      && r.col == START_COL && r.row == 0
      && !r.hasCargo && r.deliveries == 1
      && r.score == STASH_BONUS + DROP_BONUS
      && |r.dropFx| == 1 && !r.isOver && r.message == DropComplete
  {
    UpKeys();
    var moved := s.(lastMoveAt := now, row := 0);
    assert KeyDown(g, s, "ArrowUp", now) == EvaluateTileActions(moved, now);
    assert PickUpCargo(moved) == moved;
  }

  /** The ninth press delivers: one run, 225 points, no cargo, one marker,
      and the game goes on. */
  lemma NineUpsDeliver(g: Grid)
    ensures var r := Run(g, Init(0.0), Ups(9));
      && r.col == START_COL && r.row == 0
      && !r.hasCargo && r.deliveries == 1
      && r.score == STASH_BONUS + DROP_BONUS
      && |r.dropFx| == 1 && !r.isOver && r.message == DropComplete
  {
    var e := KeyPress("ArrowUp", 990.0);
    assert Ups(9) == Ups(8) + [e];
    RunSnoc(g, Init(0.0), Ups(8), e);
    UpsClimb(g, 8);
    LastUpDelivers(g, Run(g, Init(0.0), Ups(8)), 990.0);
  }
}
