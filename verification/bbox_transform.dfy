/** Box regression targets: `bbox_transform` (encode) and `bbox_transform_inv`
    (decode, six columns at a time). The natural logarithm and exponential are
    taken as function parameters `ln` and `exp`; the facts about them that a
    proof needs appear as preconditions of that proof only. */
module BboxTransform {
  import opened Boxes

  /** On `axis`, the target `t` holds the centre offset in units of the
      candidate's extent (column `axis`) and the log of the extent ratio
      (column `axis + 3`). */
  predicate EncodedOnAxis(t: Row, e: Row, g: Row, ln: real -> real, axis: Axis)
    requires |t| == 6 && NonDegenerate(e) && IsBox(g)
  {
    && t[axis] * Extent(e, axis) == Center(g, axis) - Center(e, axis)
    && t[axis + 3] == ln(Extent(g, axis) / Extent(e, axis))
  }

  /** Regression target of one candidate box `e` against its ground truth `g`,
      in the column order dx, dy, dz, dw, dh, dd. */
  function EncodeBox(e: Row, g: Row, ln: real -> real): (t: Row)
    requires NonDegenerate(e) && IsBox(g)
    ensures |t| == 6
    ensures EncodedOnAxis(t, e, g, ln, 0)
    ensures EncodedOnAxis(t, e, g, ln, 1)
    ensures EncodedOnAxis(t, e, g, ln, 2)
  {
    [ (Center(g, 0) - Center(e, 0)) / Extent(e, 0),
      (Center(g, 1) - Center(e, 1)) / Extent(e, 1),
      (Center(g, 2) - Center(e, 2)) / Extent(e, 2),
      ln(Extent(g, 0) / Extent(e, 0)),
      ln(Extent(g, 1) / Extent(e, 1)),
      ln(Extent(g, 2) / Extent(e, 2)) ]
  }

  /** Precondition of `Encode`: paired boxes, and candidate extents that can
      be divided by. */
  predicate EncodeArgs(ex: seq<Row>, gt: seq<Row>) {
    && |ex| == |gt|
    && forall i :: 0 <= i < |ex| ==> NonDegenerate(ex[i]) && IsBox(gt[i])
  }

  /** `bbox_transform`: one target row per (ex, gt) pair, six columns. */
  function Encode(ex: seq<Row>, gt: seq<Row>, ln: real -> real): (targets: Mat)
    requires EncodeArgs(ex, gt)
    ensures targets.Valid() && targets.cols == 6
    ensures |targets.rows| == |ex|
    ensures forall i :: 0 <= i < |ex| ==> targets.rows[i] == EncodeBox(ex[i], gt[i], ln)
  {
    Mat(seq(|ex|, i requires 0 <= i < |ex| => EncodeBox(ex[i], gt[i], ln)), 6)
  }

  /** On `axis`, the decoded group `p` has the predicted size
      `exp(d') * size` and the predicted centre `d * size + centre`. */
  predicate DecodedOnAxis(p: Row, b: Row, d: Row, exp: real -> real, axis: Axis)
    requires |p| == 6 && IsBox(b) && |d| == 6
  {
    && p[axis + 3] - p[axis] == exp(d[axis + 3]) * Extent(b, axis)
    && (p[axis] + p[axis + 3]) / 2.0 == d[axis] * Extent(b, axis) + Center(b, axis)
  }

  /** One group of six deltas decoded against base box `b`. */
  function DecodeBox(b: Row, d: Row, exp: real -> real): (p: Row)
    requires IsBox(b) && |d| == 6
    ensures |p| == 6
    ensures DecodedOnAxis(p, b, d, exp, 0)
    ensures DecodedOnAxis(p, b, d, exp, 1)
    ensures DecodedOnAxis(p, b, d, exp, 2)
  {
    var cx := d[0] * Extent(b, 0) + Center(b, 0);
    var cy := d[1] * Extent(b, 1) + Center(b, 1);
    var cz := d[2] * Extent(b, 2) + Center(b, 2);
    var w := exp(d[3]) * Extent(b, 0);
    var h := exp(d[4]) * Extent(b, 1);
    var dd := exp(d[5]) * Extent(b, 2);
    [cx - 0.5 * w, cy - 0.5 * h, cz - 0.5 * dd, cx + 0.5 * w, cy + 0.5 * h, cz + 0.5 * dd]
  }

  /** One delta row decoded group by group against the same base box. */
  function DecodeRow(b: Row, drow: Row, exp: real -> real): (r: Row)
    requires IsBox(b) && |drow| % 6 == 0
    ensures |r| == |drow|
    decreases |drow|
  {
    if |drow| == 0 then []
    else DecodeBox(b, drow[..6], exp) + DecodeRow(b, drow[6..], exp)
  }

  /** Precondition of `Decode`: with no base boxes anything goes; otherwise
      one delta row per box and whole groups of six columns. */
  predicate DecodeArgs(boxes: seq<Row>, deltas: Mat) {
    && deltas.Valid()
    && (forall i :: 0 <= i < |boxes| ==> IsBox(boxes[i]))
    && (|boxes| == 0 || (|deltas.rows| == |boxes| && deltas.cols % 6 == 0))
  }

  /** `bbox_transform_inv`: the result has the shape of `deltas` (zero rows
      when there are no boxes) and every group of six columns of row i is
      decoded against base box i. */
  function Decode(boxes: seq<Row>, deltas: Mat, exp: real -> real): (pred: Mat)
    requires DecodeArgs(boxes, deltas)
    ensures pred.Valid() && pred.cols == deltas.cols
    ensures |pred.rows| == |boxes|
    ensures forall i, g :: 0 <= i < |boxes| && 0 <= g < deltas.cols / 6 ==>
      Group(pred.rows[i], g) == DecodeBox(boxes[i], Group(deltas.rows[i], g), exp)
  {
    if |boxes| == 0 then Mat([], deltas.cols)
    else
      DecodeRowsGroups(boxes, deltas, exp);
      Mat(seq(|boxes|, i requires 0 <= i < |boxes| => DecodeRow(boxes[i], deltas.rows[i], exp)),
          deltas.cols)
  }

  /** Group g of a decoded row is group g of the deltas decoded on its own. */
  lemma {:induction false} DecodeRowGroup(b: Row, drow: Row, exp: real -> real, g: nat)
    requires IsBox(b) && |drow| % 6 == 0 && 6 * g + 6 <= |drow|
    ensures Group(DecodeRow(b, drow, exp), g) == DecodeBox(b, Group(drow, g), exp)
    decreases g
  {
    var head := DecodeBox(b, drow[..6], exp);
    var tail := DecodeRow(b, drow[6..], exp);
    GroupOfConcat(head, tail, g);
    if g == 0 {
      assert Group(drow, 0) == drow[..6];
    } else {
      DecodeRowGroup(b, drow[6..], exp, g - 1);
      GroupOfTail(drow, g - 1);
    }
  }

  lemma DecodeRowsGroups(boxes: seq<Row>, deltas: Mat, exp: real -> real)
    requires DecodeArgs(boxes, deltas) && |boxes| > 0
    ensures forall i, g :: 0 <= i < |boxes| && 0 <= g < deltas.cols / 6 ==>
      Group(DecodeRow(boxes[i], deltas.rows[i], exp), g)
      == DecodeBox(boxes[i], Group(deltas.rows[i], g), exp)
  {
    forall i, g | 0 <= i < |boxes| && 0 <= g < deltas.cols / 6
      ensures Group(DecodeRow(boxes[i], deltas.rows[i], exp), g)
              == DecodeBox(boxes[i], Group(deltas.rows[i], g), exp)
    {
      DecodeRowGroup(boxes[i], deltas.rows[i], exp, g);
    }
  }

  // ---------------------------------------------------------------------------
  // Properties relating encode and decode.

  /** Encoding a box against itself gives the all-zero target, given ln(1) = 0. */
  lemma EncodeSelfIsZero(ex: seq<Row>, ln: real -> real)
    requires ln(1.0) == 0.0
    requires EncodeArgs(ex, ex)
    ensures forall i :: 0 <= i < |ex| ==> Encode(ex, ex, ln).rows[i] == Zeros6()
  {
    forall i | 0 <= i < |ex|
      ensures EncodeBox(ex[i], ex[i], ln) == Zeros6()
    {
      var e := ex[i];
      assert Extent(e, 0) / Extent(e, 0) == 1.0;
      assert Extent(e, 1) / Extent(e, 1) == 1.0;
      assert Extent(e, 2) / Extent(e, 2) == 1.0;
    }
  }

  /** A zero delta group decodes a base box to itself with the high corner
      moved out by one, given exp(0) = 1. */
  lemma DecodeBoxZero(b: Row, exp: real -> real)
    requires IsBox(b) && exp(0.0) == 1.0
    ensures DecodeBox(b, Zeros6(), exp) == HighPlusOne(b)
  {
  }

  /** All-zero deltas decode every group of row i to base box i with the high
      corner moved out by one. */
  lemma DecodeZeroDeltas(boxes: seq<Row>, deltas: Mat, exp: real -> real)
    requires DecodeArgs(boxes, deltas) && exp(0.0) == 1.0
    requires forall i, j :: 0 <= i < |deltas.rows| && 0 <= j < |deltas.rows[i]| ==>
      deltas.rows[i][j] == 0.0
    ensures forall i, g :: 0 <= i < |boxes| && 0 <= g < deltas.cols / 6 ==>
      Group(Decode(boxes, deltas, exp).rows[i], g) == HighPlusOne(boxes[i])
  {
    forall i, g | 0 <= i < |boxes| && 0 <= g < deltas.cols / 6
      ensures Group(Decode(boxes, deltas, exp).rows[i], g) == HighPlusOne(boxes[i])
    {
      assert Group(deltas.rows[i], g) == Zeros6();
      DecodeBoxZero(boxes[i], exp);
    }
  }

  /** With a positive exponential, a base box with positive extents decodes
      to a box whose high corner lies strictly above its low corner. */
  lemma DecodeBoxOriented(b: Row, d: Row, exp: real -> real)
    requires PositiveExtents(b) && |d| == 6
    requires forall x :: exp(x) > 0.0
    ensures Oriented(DecodeBox(b, d, exp))
  {
    var p := DecodeBox(b, d, exp);
    assert DecodedOnAxis(p, b, d, exp, 0);
    assert DecodedOnAxis(p, b, d, exp, 1);
    assert DecodedOnAxis(p, b, d, exp, 2);
    var dw, dh, dd := d[3], d[4], d[5];
    PositiveProduct(exp(dw), Extent(b, 0));
    PositiveProduct(exp(dh), Extent(b, 1));
    PositiveProduct(exp(dd), Extent(b, 2));
  }

  /** The same for every decoded group of every row. */
  lemma DecodeKeepsOrientation(boxes: seq<Row>, deltas: Mat, exp: real -> real)
    requires DecodeArgs(boxes, deltas)
    requires forall x :: exp(x) > 0.0
    requires forall i :: 0 <= i < |boxes| ==> PositiveExtents(boxes[i])
    ensures forall i, g :: 0 <= i < |boxes| && 0 <= g < deltas.cols / 6 ==>
      Oriented(Group(Decode(boxes, deltas, exp).rows[i], g))
  {
    forall i, g | 0 <= i < |boxes| && 0 <= g < deltas.cols / 6
      ensures Oriented(Group(Decode(boxes, deltas, exp).rows[i], g))
    {
      DecodeBoxOriented(boxes[i], Group(deltas.rows[i], g), exp);
    }
  }

  lemma PositiveProduct(a: real, b: real)
    requires a > 0.0 && b > 0.0
    ensures a * b > 0.0
  {
  }

  /** On one axis, decoding a target that encodes `g` against `e` gives back
      `g`'s low corner and its high corner plus one. */
  lemma RoundTripAxis(e: Row, g: Row, t: Row, p: Row, ln: real -> real, exp: real -> real,
                      axis: Axis)
    requires PositiveExtents(e) && PositiveExtents(g) && |t| == 6 && |p| == 6
    requires forall r: real :: r > 0.0 ==> exp(ln(r)) == r
    requires EncodedOnAxis(t, e, g, ln, axis) && DecodedOnAxis(p, e, t, exp, axis)
    ensures p[axis] == g[axis] && p[axis + 3] == g[axis + 3] + 1.0
  {
  }

  /** Decoding the encoding of `g` against `e` gives back `g`'s low corner
      exactly and its high corner plus one, when exp inverts ln on positive
      reals and both boxes have positive extents. */
  lemma RoundTripBox(e: Row, g: Row, ln: real -> real, exp: real -> real)
    requires PositiveExtents(e) && PositiveExtents(g)
    requires forall r: real :: r > 0.0 ==> exp(ln(r)) == r
    ensures DecodeBox(e, EncodeBox(e, g, ln), exp) == HighPlusOne(g)
  {
    var t := EncodeBox(e, g, ln);
    var p := DecodeBox(e, t, exp);
    RoundTripAxis(e, g, t, p, ln, exp, 0);
    RoundTripAxis(e, g, t, p, ln, exp, 1);
    RoundTripAxis(e, g, t, p, ln, exp, 2);
  }

  /** The round trip over whole arrays: row i of decode(ex, encode(ex, gt))
      is gt[i] with its high corner moved out by one. */
  lemma RoundTrip(ex: seq<Row>, gt: seq<Row>, ln: real -> real, exp: real -> real)
    requires EncodeArgs(ex, gt)
    requires forall i :: 0 <= i < |ex| ==> PositiveExtents(ex[i])
    requires forall i :: 0 <= i < |gt| ==> PositiveExtents(gt[i])
    requires forall r: real :: r > 0.0 ==> exp(ln(r)) == r
    ensures |Decode(ex, Encode(ex, gt, ln), exp).rows| == |gt|
    ensures forall i :: 0 <= i < |gt| ==>
      Decode(ex, Encode(ex, gt, ln), exp).rows[i] == HighPlusOne(gt[i])
  {
    var targets := Encode(ex, gt, ln);
    var pred := Decode(ex, targets, exp);
    forall i | 0 <= i < |gt|
      ensures pred.rows[i] == HighPlusOne(gt[i])
    {
      RoundTripBox(ex[i], gt[i], ln, exp);
      if |ex| > 0 {
        assert Group(pred.rows[i], 0) == pred.rows[i];
        assert Group(targets.rows[i], 0) == targets.rows[i];
      }
    }
  }
}
