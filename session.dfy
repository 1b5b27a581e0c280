/**
 * The running game as an object: the fields of the game record and the
 * player's cell, updated in place by the handlers in program order.  Every
 * method is proved to perform the transition of its namesake in GameSpec.
 * Every method but ResetPlayer also keeps the invariant GameSpec.Inv;
 * ResetPlayer, a helper of Restart and of a crash, ensures only that the
 * player is back on the grid.
 */
module Session {
  import opened Wrappers
  import opened Grid
  import opened Geometry
  import opened Keys
  import GameSpec
  import GameProperties

  class Game {
    const grid: Grid

    var col: int
    var row: int
    var score: int
    var lives: int
    var deliveries: int
    var hasCargo: bool
    var isOver: bool
    var message: GameSpec.Message
    var lastMoveAt: real
    var cashPickup: Option<GameSpec.Cash>
    var cashRespawnAt: real
    var dropFx: seq<GameSpec.DropFx>

    /** The fields as one value. */
    function State(): GameSpec.GameState
      reads this
    {
      GameSpec.GameState(col, row, score, lives, deliveries, hasCargo, isOver, message,
                         lastMoveAt, cashPickup, cashRespawnAt, dropFx)
    }

    predicate Valid()
      reads this
    {
      GameSpec.Inv(grid, State())
    }

    /** The game as it stands once the page has loaded and restarted it at `now`. */
    constructor (grid: Grid, now: real)
      ensures this.grid == grid
      ensures Valid() && State() == GameSpec.Init(now)
    {
      this.grid := grid;
      col, row := START_COL, START_ROW;
      score, lives, deliveries := 0, GameSpec.START_LIVES, 0;
      hasCargo, isOver := false, false;
      message := GameSpec.GrabCargo;
      lastMoveAt := 0.0;
      cashPickup, cashRespawnAt := None, 0.0;
      dropFx := [];
      new;
      Restart(now);
    }

    method ResetPlayer()
      modifies this`col, this`row
      ensures OnGrid(grid, col, row)
      ensures State() == GameSpec.ResetPlayer(old(State()))
    {
      col := START_COL;
      row := START_ROW;
    }

    method Restart(now: real)
      modifies this
      ensures State() == GameSpec.Restart(old(State()), now)
      ensures Valid()
    {
      ghost var target := GameSpec.Restart(State(), now);
      GameProperties.RestartValues(grid, State(), now);
      score := 0;
      lives := GameSpec.START_LIVES;
      deliveries := 0;
      hasCargo := false;
      isOver := false;
      message := GameSpec.GrabCargo;
      dropFx := [];
      cashPickup := None;
      cashRespawnAt := now + GameSpec.FIRST_CASH_DELAY;
      ResetPlayer();
      assert State() == target;
    }

    /** The three tile checks, each seeing the fields the previous one left. */
    method EvaluateTileActions(now: real)
      requires Valid() && !isOver
      modifies this
      ensures State() == GameSpec.EvaluateTileActions(old(State()), now)
      ensures Valid()
    {
      ghost var before := State();
      ghost var picked := GameSpec.PickUpCargo(before);
      ghost var delivered := GameSpec.Deliver(picked);
      if row == STASH_ROW && col >= STASH_MIN_COL && col <= STASH_MAX_COL && !hasCargo {
        hasCargo := true;
        score := score + GameSpec.STASH_BONUS;
        message := GameSpec.CargoAcquired;
      }
      assert State() == picked;
      if row == 0 && hasCargo && col in DROP_COLS {
        hasCargo := false;
        deliveries := deliveries + 1;
        score := score + GameSpec.DROP_BONUS;
        message := GameSpec.DropComplete;
        dropFx := dropFx + [GameSpec.DropFx(col * TILE + TILE / 2, row * TILE + TILE / 2, GameSpec.DROP_FX_TTL)];
        if deliveries >= DELIVERY_TARGET {
          isOver := true;
          message := GameSpec.RunComplete;
        }
        assert State() == delivered;
      }
      assert State() == delivered;
      if cashPickup.Some? && col == cashPickup.value.col && row == cashPickup.value.row {
        score := score + GameSpec.CASH_BONUS;
        message := GameSpec.CashCollected;
        cashPickup := None;
        cashRespawnAt := now + GameSpec.CASH_RESPAWN_DELAY;
      }
      assert State() == GameSpec.CollectCash(delivered, now);
      GameProperties.TileActionsPreserveInv(grid, before, now);
    }

    /** One clamped step, then the tile checks. */
    method MovePlayer(dx: int, dy: int, now: real)
      requires Valid() && !isOver
      modifies this
      ensures State() == GameSpec.MovePlayer(grid, old(State()), dx, dy, now)
      ensures Valid()
    {
      var nextCol := Clamp(col + dx, 0, grid.cols - 1);
      var nextRow := Clamp(row + dy, 0, grid.rows - 1);
      col := nextCol;
      row := nextRow;
      EvaluateTileActions(now);
    }

    /** The key-down handler: the game-over gate, the 110 ms throttle, then
        the step the key asks for, if any. */
    method KeyDown(key: string, now: real)
      requires Valid()
      modifies this
      ensures State() == GameSpec.KeyDown(grid, old(State()), key, now)
      ensures Valid()
    {
      if isOver {
        if IsRestartKey(key) {
          Restart(now);
        }
        return;
      }
      if now - lastMoveAt < GameSpec.MOVE_INTERVAL {
        return;
      }
      lastMoveAt := now;
      match StepFor(key)
      case None =>
      case Some(d) => MovePlayer(d.dx, d.dy, now);
    }

    /** Places a cash pickup from the draws u (row) and v (column) when due. */
    method SpawnCashIfNeeded(now: real, u: real, v: real)
      requires Valid() && GameSpec.IsDraw(u) && GameSpec.IsDraw(v)
      modifies this
      ensures State() == GameSpec.SpawnCash(grid, old(State()), now, u, v)
      ensures Valid()
    {
      GameProperties.SpawnPreservesInv(grid, State(), now, u, v);
      if cashPickup.Some? || now < cashRespawnAt || isOver {
        return;
      }
      var r := GameSpec.CASH_ROWS[GameSpec.Pick(u, |GameSpec.CASH_ROWS|)];
      var c := GameSpec.Pick(v, grid.cols);
      cashPickup := Some(GameSpec.Cash(r, c));
    }

    /** The collision check: scans the cars in order and stops at the first
        one in the player's row that overlaps the player. */
    method CheckCarHits(cars: seq<Car>)
      requires Valid()
      modifies this
      ensures State() == GameSpec.CarHits(old(State()), cars)
      ensures Valid()
    {
      GameProperties.CarHitsPreservesInv(grid, State(), cars);
      if !IsRoadRow(row) || isOver {
        return;
      }
      var i := 0;
      while i < |cars|
        invariant 0 <= i <= |cars|
        invariant State() == old(State())
        invariant FirstHit(cars, col, row) == FirstHitFrom(cars, col, row, i)
      {
        var car := cars[i];
        if car.row == row && Intersects(PlayerBox(col, row), car.box) {
          lives := lives - 1;
          hasCargo := false;
          message := if lives > 0 then GameSpec.Smashed else GameSpec.Busted;
          ResetPlayer();
          if lives <= 0 {
            isOver := true;
          }
          return;
        }
        i := i + 1;
      }
    }
  }
}
