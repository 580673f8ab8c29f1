/** Shared vocabulary of the box routines: rows of reals, dense matrices that
    remember their column count, and the inclusive "+1" extent convention. */
module Boxes {

  /** One row of a box array. A box is the first six columns of a row,
      in the order (x1, y1, z1, x2, y2, z2). */
  type Row = seq<real>

  /** A spatial axis: 0 is x, 1 is y, 2 is z. Column `axis` of a box holds the
      low corner on that axis and column `axis + 3` the high corner. */
  type Axis = k: nat | k < 3

  /** A dense two-dimensional array. The column count is kept explicitly so
      that an array with zero rows still has a shape. */
  datatype Mat = Mat(rows: seq<Row>, cols: nat) {

    /** Every row has exactly `cols` entries. */
    predicate Valid() {
      forall i :: 0 <= i < |rows| ==> |rows[i]| == cols
    }
  }

  predicate IsBox(b: Row) {
    |b| >= 6
  }

  /** Inclusive extent along an axis: high - low + 1. */
  function Extent(b: Row, axis: Axis): real
    requires IsBox(b)
  {
    b[axis + 3] - b[axis] + 1.0
  }

  /** Centre along an axis under the inclusive convention. */
  function Center(b: Row, axis: Axis): real
    requires IsBox(b)
  {
    b[axis] + 0.5 * Extent(b, axis)
  }

  /** A box whose extent is non-zero on every axis (a valid divisor). */
  predicate NonDegenerate(b: Row) {
    IsBox(b) && Extent(b, 0) != 0.0 && Extent(b, 1) != 0.0 && Extent(b, 2) != 0.0
  }

  /** A box whose extent is positive on every axis. */
  predicate PositiveExtents(b: Row) {
    IsBox(b) && Extent(b, 0) > 0.0 && Extent(b, 1) > 0.0 && Extent(b, 2) > 0.0
  }

  /** Every high corner lies strictly above its low corner. */
  predicate Oriented(b: Row) {
    IsBox(b) && b[0] < b[3] && b[1] < b[4] && b[2] < b[5]
  }

  /** The g-th group of six consecutive columns of a row. */
  function Group(r: Row, g: nat): Row
    requires 6 * g + 6 <= |r|
  {
    r[6 * g .. 6 * g + 6]
  }

  /** Prepending one group of six shifts the group numbers by one. */
  lemma GroupOfConcat(head: Row, tail: Row, g: nat)
    requires |head| == 6 && 6 * g + 6 <= |head| + |tail|
    ensures g == 0 ==> Group(head + tail, g) == head
    ensures g > 0 ==> Group(head + tail, g) == Group(tail, g - 1)
  {
  }

  /** Group g of a row without its first group is group g + 1 of the row. */
  lemma GroupOfTail(row: Row, g: nat)
    requires 6 * g + 12 <= |row|
    ensures Group(row[6..], g) == Group(row, g + 1)
  {
  }

  /** The box with its high corner moved out by one on every axis. */
  function HighPlusOne(b: Row): Row
    requires IsBox(b)
  {
    [b[0], b[1], b[2], b[3] + 1.0, b[4] + 1.0, b[5] + 1.0]
  }

  /** The all-zero six-column row. */
  function Zeros6(): Row {
    [0.0, 0.0, 0.0, 0.0, 0.0, 0.0]
  }
}
