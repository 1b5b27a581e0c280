/**
 * The static grid: its size, the zone layout (road rows, safe rows, the
 * stash bay, the drop columns), the start cell and the clamping helper.
 * Nothing here changes during a session.
 */
module Grid {

  /** Column and row counts. The program derives them from the canvas size
      divided by TILE; the canvas size is not fixed here, only bounded so that
      every landmark of the layout lies on the grid. */
  datatype Dims = Dims(cols: int, rows: int)

  type Grid = d: Dims | d.cols >= 14 && d.rows >= 10 witness Dims(14, 10)

  const TILE: int := 64
  const DELIVERY_TARGET: int := 5

  const START_COL: int := 7
  const START_ROW: int := 9

  const STASH_ROW: int := 8
  const STASH_MIN_COL: int := 6
  const STASH_MAX_COL: int := 8

  const DROP_COLS: seq<int> := [1, 7, 13]

  predicate IsRoadRow(row: int) {
    row in {1, 2, 4, 5, 7}
  }

  predicate IsSafeRow(row: int) {
    row in {0, 3, 6, 8, 9}
  }

  predicate InStash(col: int, row: int) {
    row == STASH_ROW && STASH_MIN_COL <= col <= STASH_MAX_COL
  }

  predicate IsDropCol(col: int) {
    col in DROP_COLS
  }

  predicate OnGrid(g: Grid, col: int, row: int) {
    0 <= col < g.cols && 0 <= row < g.rows
  }

  /** `Math.max(lo, Math.min(hi, v))`: the value nearest to v inside [lo, hi]. */
  function Clamp(v: int, lo: int, hi: int): (r: int)
    ensures lo <= hi ==> lo <= r <= hi
    ensures lo <= v <= hi ==> r == v
    ensures v < lo ==> r == lo
    ensures lo <= hi < v ==> r == hi
  {
    var m := if hi < v then hi else v;
    if m < lo then lo else m
  }

  /** The first ten rows are each either a road row or a safe row, never both;
      on a grid of exactly ten rows the "should never happen" branch of the
      map painter is unreachable. */
  lemma RowsPartition(row: int)
    requires 0 <= row < 10
    ensures IsRoadRow(row) != IsSafeRow(row)
  {
  }

  /** The start cell, the stash bay and the drop zones are all on the grid,
      and the start cell is safe. */
  lemma LandmarksOnGrid(g: Grid)
    ensures OnGrid(g, START_COL, START_ROW) && IsSafeRow(START_ROW)
    ensures forall c :: STASH_MIN_COL <= c <= STASH_MAX_COL ==> OnGrid(g, c, STASH_ROW)
    ensures forall i :: 0 <= i < |DROP_COLS| ==> OnGrid(g, DROP_COLS[i], 0)
  {
  }
}
