/** `clip_boxes`: every coordinate of every six-column group is clamped into
    the volume, one strided column assignment after another. The routine
    writes into its argument; here it returns the clipped matrix instead. */
module Clipping {
  import opened Boxes

  /** `im_shape` in the order the routine indexes it: height, width, depth. */
  datatype ImShape = ImShape(height: real, width: real, depth: real)

  /** `max(min(v, hi), 0)`. */
  function Clamp(v: real, hi: real): real {
    var m := if v < hi then v else hi;
    if m > 0.0 then m else 0.0
  }

  /** What a clamp produces: never negative, never above a non-negative
      bound, the value itself when it is in range, the nearest end of the
      range otherwise, and 0 when the range is empty. */
  lemma ClampSpec(v: real, hi: real)
    ensures 0.0 <= Clamp(v, hi)
    ensures hi >= 0.0 ==> Clamp(v, hi) <= hi
    ensures 0.0 <= v <= hi ==> Clamp(v, hi) == v
    ensures v <= 0.0 || hi <= 0.0 ==> Clamp(v, hi) == 0.0
    ensures 0.0 <= hi <= v ==> Clamp(v, hi) == hi
  {
  }

  /** Clamping twice to the same bound is clamping once. */
  lemma ClampIdempotent(v: real, hi: real)
    ensures Clamp(Clamp(v, hi), hi) == Clamp(v, hi)
  {
  }

  /** The upper clamp bound of column `c` of a group: x columns (0 and 3)
      use width - 1, y columns (1 and 4) height - 1, z columns (2 and 5)
      depth - 1. */
  function Bound(im: ImShape, c: nat): real
    requires c < 6
  {
    if c == 0 || c == 3 then im.width - 1.0
    else if c == 1 || c == 4 then im.height - 1.0
    else im.depth - 1.0
  }

  /** The first five assignments of the routine, on one group of six
      columns: x1, y1, z1, x2 and y2 are each clamped from their own column,
      in that order. Every strided assignment `boxes[:, c::6] = ...` reads and
      writes inside one group only, so doing all six on one group and then
      on the next is the same as doing each on all groups in turn. */
  function ClipFirstFive(g: Row, im: ImShape): Row
    requires |g| == 6
  {
    var x1 := g[0 := Clamp(g[0], Bound(im, 0))];
    var y1 := x1[1 := Clamp(x1[1], Bound(im, 1))];
    var z1 := y1[2 := Clamp(y1[2], Bound(im, 2))];
    var x2 := z1[3 := Clamp(z1[3], Bound(im, 3))];
    x2[4 := Clamp(x2[4], Bound(im, 4))]
  }

  /** One group clipped as written: the sixth assignment reads column 4
      (y2), already clipped, instead of column 5 (z2). */
  function ClipGroup(g: Row, im: ImShape): (r: Row)
    requires |g| == 6
    ensures |r| == 6
    ensures forall k :: 0 <= k < 5 ==> r[k] == Clamp(g[k], Bound(im, k))
    ensures r[5] == Clamp(Clamp(g[4], Bound(im, 4)), Bound(im, 5))
  {
    var y2 := ClipFirstFive(g, im);
    y2[5 := Clamp(y2[4], Bound(im, 5))]
  }

  /** One group clipped as evidently intended: the sixth assignment reads z2. */
  function ClipGroupCorrected(g: Row, im: ImShape): (r: Row)
    requires |g| == 6
    ensures |r| == 6
    ensures forall k :: 0 <= k < 6 ==> r[k] == Clamp(g[k], Bound(im, k))
  {
    var y2 := ClipFirstFive(g, im);
    y2[5 := Clamp(y2[5], Bound(im, 5))]
  }

  /** One row clipped as written, group by group. */
  function ClipRow(row: Row, im: ImShape): (r: Row)
    requires |row| % 6 == 0
    ensures |r| == |row|
    decreases |row|
  {
    if |row| == 0 then [] else ClipGroup(row[..6], im) + ClipRow(row[6..], im)
  }

  /** One row clipped as evidently intended, group by group. */
  function ClipRowCorrected(row: Row, im: ImShape): (r: Row)
    requires |row| % 6 == 0
    ensures |r| == |row|
    decreases |row|
  {
    if |row| == 0 then [] else ClipGroupCorrected(row[..6], im) + ClipRowCorrected(row[6..], im)
  }

  /** Group g of a row clipped as written is group g clipped on its own. */
  lemma {:induction false} ClipRowGroup(row: Row, im: ImShape, g: nat)
    requires |row| % 6 == 0 && 6 * g + 6 <= |row|
    ensures Group(ClipRow(row, im), g) == ClipGroup(Group(row, g), im)
    decreases g
  {
    var head := ClipGroup(row[..6], im);
    var tail := ClipRow(row[6..], im);
    GroupOfConcat(head, tail, g);
    if g == 0 {
      assert Group(row, 0) == row[..6];
    } else {
      ClipRowGroup(row[6..], im, g - 1);
      GroupOfTail(row, g - 1);
    }
  }

  /** Group g of a row clipped as intended is group g clipped on its own. */
  lemma {:induction false} ClipRowCorrectedGroup(row: Row, im: ImShape, g: nat)
    requires |row| % 6 == 0 && 6 * g + 6 <= |row|
    ensures Group(ClipRowCorrected(row, im), g) == ClipGroupCorrected(Group(row, g), im)
    decreases g
  {
    var head := ClipGroupCorrected(row[..6], im);
    var tail := ClipRowCorrected(row[6..], im);
    GroupOfConcat(head, tail, g);
    if g == 0 {
      assert Group(row, 0) == row[..6];
    } else {
      ClipRowCorrectedGroup(row[6..], im, g - 1);
      GroupOfTail(row, g - 1);
    }
  }

  /** Both row clippings, stated group by group for every row of a matrix. */
  lemma ClipRowsGroups(boxes: Mat, im: ImShape)
    requires boxes.Valid() && boxes.cols % 6 == 0
    ensures forall i, g :: 0 <= i < |boxes.rows| && 0 <= g < boxes.cols / 6 ==>
      Group(ClipRow(boxes.rows[i], im), g) == ClipGroup(Group(boxes.rows[i], g), im)
    ensures forall i, g :: 0 <= i < |boxes.rows| && 0 <= g < boxes.cols / 6 ==>
      Group(ClipRowCorrected(boxes.rows[i], im), g)
      == ClipGroupCorrected(Group(boxes.rows[i], g), im)
  {
    forall i, g | 0 <= i < |boxes.rows| && 0 <= g < boxes.cols / 6
      ensures Group(ClipRow(boxes.rows[i], im), g) == ClipGroup(Group(boxes.rows[i], g), im)
      ensures Group(ClipRowCorrected(boxes.rows[i], im), g)
              == ClipGroupCorrected(Group(boxes.rows[i], g), im)
    {
      ClipRowGroup(boxes.rows[i], im, g);
      ClipRowCorrectedGroup(boxes.rows[i], im, g);
    }
  }

  /** `clip_boxes` as written: the shape is kept and every group of every
      row is clipped on its own (see `ClipGroup` for the columns). */
  function ClipBoxes(boxes: Mat, im: ImShape): (r: Mat)
    requires boxes.Valid() && boxes.cols % 6 == 0
    ensures r.Valid() && r.cols == boxes.cols && |r.rows| == |boxes.rows|
    ensures forall i, g :: 0 <= i < |boxes.rows| && 0 <= g < boxes.cols / 6 ==>
      Group(r.rows[i], g) == ClipGroup(Group(boxes.rows[i], g), im)
  {
    ClipRowsGroups(boxes, im);
    Mat(seq(|boxes.rows|, i requires 0 <= i < |boxes.rows| => ClipRow(boxes.rows[i], im)),
        boxes.cols)
  }

  /** `clip_boxes` as evidently intended. */
  function ClipBoxesCorrected(boxes: Mat, im: ImShape): (r: Mat)
    requires boxes.Valid() && boxes.cols % 6 == 0
    ensures r.Valid() && r.cols == boxes.cols && |r.rows| == |boxes.rows|
    ensures forall i, g :: 0 <= i < |boxes.rows| && 0 <= g < boxes.cols / 6 ==>
      Group(r.rows[i], g) == ClipGroupCorrected(Group(boxes.rows[i], g), im)
  {
    ClipRowsGroups(boxes, im);
    Mat(seq(|boxes.rows|, i requires 0 <= i < |boxes.rows| => ClipRowCorrected(boxes.rows[i], im)),
        boxes.cols)
  }

  // ---------------------------------------------------------------------------
  // Properties.

  /** Every entry of a group lies in the clamp range of its column. */
  predicate GroupInRange(g: Row, im: ImShape)
    requires |g| == 6
  {
    forall k :: 0 <= k < 6 ==> 0.0 <= g[k] && (Bound(im, k) >= 0.0 ==> g[k] <= Bound(im, k))
  }

  /** Every group of every row lies in range. */
  predicate AllInRange(boxes: Mat, im: ImShape)
    requires boxes.Valid() && boxes.cols % 6 == 0
  {
    forall i, g :: 0 <= i < |boxes.rows| && 0 <= g < boxes.cols / 6 ==>
      GroupInRange(Group(boxes.rows[i], g), im)
  }

  /** Two rows of whole groups are equal when all their groups are. */
  lemma RowEqualByGroups(a: Row, b: Row)
    requires |a| == |b| && |a| % 6 == 0
    requires forall g :: 0 <= g < |a| / 6 ==> Group(a, g) == Group(b, g)
    ensures a == b
  {
    forall j | 0 <= j < |a|
      ensures a[j] == b[j]
    {
      var g, k := j / 6, j % 6;
      assert j == 6 * g + k;
      assert Group(a, g)[k] == a[j] && Group(b, g)[k] == b[j];
    }
  }

  /** Two matrices of the same shape are equal when all their groups are. */
  lemma MatEqualByGroups(a: Mat, b: Mat)
    requires a.Valid() && b.Valid() && a.cols == b.cols && a.cols % 6 == 0
    requires |a.rows| == |b.rows|
    requires forall i, g :: 0 <= i < |a.rows| && 0 <= g < a.cols / 6 ==>
      Group(a.rows[i], g) == Group(b.rows[i], g)
    ensures a == b
  {
    forall i | 0 <= i < |a.rows|
      ensures a.rows[i] == b.rows[i]
    {
      RowEqualByGroups(a.rows[i], b.rows[i]);
    }
  }

  /** Every value of a clipped group, as written or corrected, lies in the
      range of its column. */
  lemma ClipGroupInRange(g: Row, im: ImShape)
    requires |g| == 6
    ensures GroupInRange(ClipGroup(g, im), im)
    ensures GroupInRange(ClipGroupCorrected(g, im), im)
  {
  }

  /** Every clipped value, as written or corrected, lies in the range of its
      column. */
  lemma ClipBoxesInRange(boxes: Mat, im: ImShape)
    requires boxes.Valid() && boxes.cols % 6 == 0
    ensures AllInRange(ClipBoxes(boxes, im), im)
    ensures AllInRange(ClipBoxesCorrected(boxes, im), im)
  {
    forall i, g | 0 <= i < |boxes.rows| && 0 <= g < boxes.cols / 6
      ensures GroupInRange(ClipGroup(Group(boxes.rows[i], g), im), im)
      ensures GroupInRange(ClipGroupCorrected(Group(boxes.rows[i], g), im), im)
    {
      ClipGroupInRange(Group(boxes.rows[i], g), im);
    }
  }

  /** A group clipped twice as written is the group clipped once. */
  lemma ClipGroupIdempotent(g: Row, im: ImShape)
    requires |g| == 6
    ensures ClipGroup(ClipGroup(g, im), im) == ClipGroup(g, im)
  {
  }

  /** Clipping as written is idempotent. */
  lemma ClipBoxesIdempotent(boxes: Mat, im: ImShape)
    requires boxes.Valid() && boxes.cols % 6 == 0
    ensures ClipBoxes(ClipBoxes(boxes, im), im) == ClipBoxes(boxes, im)
  {
    var once := ClipBoxes(boxes, im);
    var twice := ClipBoxes(once, im);
    forall i, g | 0 <= i < |boxes.rows| && 0 <= g < boxes.cols / 6
      ensures Group(twice.rows[i], g) == Group(once.rows[i], g)
    {
      ClipGroupIdempotent(Group(boxes.rows[i], g), im);
    }
    MatEqualByGroups(twice, once);
  }

  /** The corrected clipping is idempotent. */
  lemma ClipBoxesCorrectedIdempotent(boxes: Mat, im: ImShape)
    requires boxes.Valid() && boxes.cols % 6 == 0
    ensures ClipBoxesCorrected(ClipBoxesCorrected(boxes, im), im) == ClipBoxesCorrected(boxes, im)
  {
    var once := ClipBoxesCorrected(boxes, im);
    var twice := ClipBoxesCorrected(once, im);
    forall i, g | 0 <= i < |boxes.rows| && 0 <= g < boxes.cols / 6
      ensures Group(twice.rows[i], g) == Group(once.rows[i], g)
    {
      var x := Group(boxes.rows[i], g);
      forall k | 0 <= k < 6
        ensures Group(twice.rows[i], g)[k] == Group(once.rows[i], g)[k]
      {
        ClampIdempotent(x[k], Bound(im, k));
      }
    }
    MatEqualByGroups(twice, once);
  }

  /** A volume at least one voxel wide, high and deep: every clamp bound is
      non-negative. */
  predicate NonEmptyVolume(im: ImShape) {
    im.height >= 1.0 && im.width >= 1.0 && im.depth >= 1.0
  }

  /** A group is left unchanged by the corrected clipping exactly when it is
      in range. */
  lemma ClipGroupCorrectedFixedPoint(g: Row, im: ImShape)
    requires |g| == 6 && NonEmptyVolume(im)
    ensures ClipGroupCorrected(g, im) == g <==> GroupInRange(g, im)
  {
  }

  /** The corrected clipping leaves a matrix unchanged exactly when every
      entry is already in range. */
  lemma ClipBoxesCorrectedFixedPoints(boxes: Mat, im: ImShape)
    requires boxes.Valid() && boxes.cols % 6 == 0 && NonEmptyVolume(im)
    ensures ClipBoxesCorrected(boxes, im) == boxes <==> AllInRange(boxes, im)
  {
    var r := ClipBoxesCorrected(boxes, im);
    forall i, g | 0 <= i < |boxes.rows| && 0 <= g < boxes.cols / 6
      ensures Group(r.rows[i], g) == Group(boxes.rows[i], g)
              <==> GroupInRange(Group(boxes.rows[i], g), im)
    {
      ClipGroupCorrectedFixedPoint(Group(boxes.rows[i], g), im);
    }
    if AllInRange(boxes, im) {
      MatEqualByGroups(r, boxes);
    }
  }

  /** As written, an in-range box keeps x1, y1, z1, x2 and y2, while its z2
      comes out as y2 clipped to the depth. */
  lemma ClipBoxesColumns(boxes: Mat, im: ImShape, i: nat, g: nat)
    requires boxes.Valid() && boxes.cols % 6 == 0
    requires i < |boxes.rows| && g < boxes.cols / 6 && NonEmptyVolume(im)
    requires GroupInRange(Group(boxes.rows[i], g), im)
    ensures forall k :: 0 <= k < 5 ==>
      Group(ClipBoxes(boxes, im).rows[i], g)[k] == Group(boxes.rows[i], g)[k]
    ensures Group(ClipBoxes(boxes, im).rows[i], g)[5]
            == Clamp(Group(boxes.rows[i], g)[4], Bound(im, 5))
  {
  }

  /** A group clipped as written does not depend on its incoming z2. */
  lemma ClipGroupIgnoresZ2(a: Row, b: Row, im: ImShape)
    requires |a| == 6 && |b| == 6 && a[..5] == b[..5]
    ensures ClipGroup(a, im) == ClipGroup(b, im)
  {
  }

  /** As written, the incoming z2 values play no part: two matrices that
      differ only in their z2 columns clip to the same result. */
  lemma ClipBoxesIgnoresZ2(a: Mat, b: Mat, im: ImShape)
    requires a.Valid() && a.cols % 6 == 0 && b.Valid() && b.cols == a.cols
    requires |a.rows| == |b.rows|
    requires forall i, g :: 0 <= i < |a.rows| && 0 <= g < a.cols / 6 ==>
      Group(a.rows[i], g)[..5] == Group(b.rows[i], g)[..5]
    ensures ClipBoxes(a, im) == ClipBoxes(b, im)
  {
    var ra := ClipBoxes(a, im);
    var rb := ClipBoxes(b, im);
    forall i, g | 0 <= i < |a.rows| && 0 <= g < a.cols / 6
      ensures Group(ra.rows[i], g) == Group(rb.rows[i], g)
    {
      ClipGroupIgnoresZ2(Group(a.rows[i], g), Group(b.rows[i], g), im);
    }
    MatEqualByGroups(ra, rb);
  }

  /** The discrepancy on one box: in a 10 x 10 x 10 volume the box
      (0, 0, 0, 1, 2, 1) lies inside, yet clipping it as written turns its z2
      into 2 (its y2); the corrected clipping leaves the box as it is. */
  lemma ClipGroupZ2Counterexample()
    ensures ClipGroup([0.0, 0.0, 0.0, 1.0, 2.0, 1.0], ImShape(10.0, 10.0, 10.0))
            == [0.0, 0.0, 0.0, 1.0, 2.0, 2.0]
    ensures ClipGroupCorrected([0.0, 0.0, 0.0, 1.0, 2.0, 1.0], ImShape(10.0, 10.0, 10.0))
            == [0.0, 0.0, 0.0, 1.0, 2.0, 1.0]
  {
  }

  /** The same box as a one-row matrix, through `ClipBoxes` and
      `ClipBoxesCorrected`. */
  lemma ClipBoxesZ2Counterexample()
    ensures ClipBoxes(Mat([[0.0, 0.0, 0.0, 1.0, 2.0, 1.0]], 6), ImShape(10.0, 10.0, 10.0))
            == Mat([[0.0, 0.0, 0.0, 1.0, 2.0, 2.0]], 6)
    ensures ClipBoxesCorrected(Mat([[0.0, 0.0, 0.0, 1.0, 2.0, 1.0]], 6), ImShape(10.0, 10.0, 10.0))
            == Mat([[0.0, 0.0, 0.0, 1.0, 2.0, 1.0]], 6)
  {
    var m := Mat([[0.0, 0.0, 0.0, 1.0, 2.0, 1.0]], 6);
    var im := ImShape(10.0, 10.0, 10.0);
    assert Group(m.rows[0], 0) == m.rows[0];
    ClipGroupZ2Counterexample();
    var clipped := ClipBoxes(m, im);
    assert clipped.rows[0] == Group(clipped.rows[0], 0);
    var fixed := ClipBoxesCorrected(m, im);
    assert fixed.rows[0] == Group(fixed.rows[0], 0);
  }
}
