/**
 * Pixel geometry used by the collision test: axis-aligned boxes, the
 * player's box derived from its cell, the overlap test and the search for the
 * first car that overlaps the player.  Pixel coordinates are real numbers.
 */
module Geometry {
  import opened Wrappers
  import opened Grid

  /** An axis-aligned box: top-left corner, width and height, in pixels. */
  datatype Box = Box(x: real, y: real, w: real, h: real)

  /** A car: the lane row it drives in and its current box. */
  datatype Car = Car(row: int, box: Box)

  /** The player's box, as placed on its cell by the pixel synchroniser:
      offset by 0.2 and 0.14 of a tile, 0.58 by 0.72 of a tile in size. */
  function PlayerBox(col: int, row: int): (b: Box)
    ensures b.w > 0.0 && b.h > 0.0
    ensures (col * TILE) as real < b.x && b.x + b.w < ((col + 1) * TILE) as real
    ensures (row * TILE) as real < b.y && b.y + b.h < ((row + 1) * TILE) as real
  {
    var t := TILE as real;
    Box(col as real * t + t * 0.2, row as real * t + t * 0.14, t * 0.58, t * 0.72)
  }

  /** The box a lane car gets for its row: 0.2 of a tile down, 0.6 of a tile
      high, at horizontal position x with width w. */
  function LaneBox(row: int, x: real, w: real): (b: Box)
    ensures (row * TILE) as real < b.y && b.y + b.h < ((row + 1) * TILE) as real
  {
    var t := TILE as real;
    Box(x, row as real * t + t * 0.2, w, t * 0.6)
  }

  /** The overlap test of the collision check (strict on all four sides). */
  predicate Intersects(a: Box, b: Box) {
    a.x < b.x + b.w && a.x + a.w > b.x && a.y < b.y + b.h && a.y + a.h > b.y
  }

  /** Point (px, py) lies strictly inside box b. */
  predicate Inside(b: Box, px: real, py: real) {
    b.x < px < b.x + b.w && b.y < py < b.y + b.h
  }

  function Max(a: real, b: real): real { if a < b then b else a }
  function Min(a: real, b: real): real { if a < b then a else b }

  /** For boxes of positive size, the overlap test holds exactly when some
      point lies inside both boxes. */
  lemma IntersectsIffCommonPoint(a: Box, b: Box)
    requires a.w > 0.0 && a.h > 0.0 && b.w > 0.0 && b.h > 0.0
    ensures Intersects(a, b) <==> exists px, py :: Inside(a, px, py) && Inside(b, px, py)
  {
    if Intersects(a, b) {
      var px := (Max(a.x, b.x) + Min(a.x + a.w, b.x + b.w)) / 2.0;
      var py := (Max(a.y, b.y) + Min(a.y + a.h, b.y + b.h)) / 2.0;
      assert Inside(a, px, py) && Inside(b, px, py);
    }
  }

  /** Overlap does not depend on the order of the two boxes. */
  lemma IntersectsSymmetric(a: Box, b: Box)
    ensures Intersects(a, b) == Intersects(b, a)
  {
  }

  /** A lane car in another row never touches the player's box, and a lane car
      in the player's row touches it exactly when they overlap horizontally. */
  lemma LaneCarHitIffSameRowAndHorizontalOverlap(col: int, row: int, carRow: int, x: real, w: real)
    ensures Intersects(PlayerBox(col, row), LaneBox(carRow, x, w)) <==>
      carRow == row && PlayerBox(col, row).x < x + w && PlayerBox(col, row).x + PlayerBox(col, row).w > x
  {
    var p, c := PlayerBox(col, row), LaneBox(carRow, x, w);
    if carRow < row {
      assert c.y + c.h < (row * TILE) as real;
    } else if carRow > row {
      assert p.y + p.h < (carRow * TILE) as real;
    }
  }

  /** Car c is in the player's row and its box overlaps the player's. */
  predicate HitBy(c: Car, col: int, row: int) {
    c.row == row && Intersects(PlayerBox(col, row), c.box)
  }

  /** The first car, at index `from` or later, that hits the player at
      (col, row), scanning the list in order. */
  function FirstHitFrom(cars: seq<Car>, col: int, row: int, from: nat): (r: Option<nat>)
    requires from <= |cars|
    ensures r.Some? ==> from <= r.value < |cars| && HitBy(cars[r.value], col, row)
    ensures r.Some? ==> forall j :: from <= j < r.value ==> !HitBy(cars[j], col, row)
    ensures r.None? <==> forall j :: from <= j < |cars| ==> !HitBy(cars[j], col, row)
    decreases |cars| - from
  {
    if from == |cars| then None
    else if HitBy(cars[from], col, row) then Some(from)
    else FirstHitFrom(cars, col, row, from + 1)
  }

  /** The first car in the whole list that hits the player at (col, row). */
  function FirstHit(cars: seq<Car>, col: int, row: int): Option<nat> {
    FirstHitFrom(cars, col, row, 0)
  }
}
