# 3D box geometry of a Faster R-CNN detector, in Dafny

This project models the box arithmetic at the core of a 3D Faster R-CNN
detector. A box is six numbers `(x1, y1, z1, x2, y2, z2)` under the inclusive
convention: the extent on an axis is `high - low + 1` and the centre is
`low + 0.5 * extent`. The model covers four routines:

- **Anchor generation** (`generate_anchors_pre`). It translates every base
  anchor to every cell of a height x width x depth grid of feature-map
  positions. Cell positions are spaced `feat_stride` apart. The routine also
  returns the number of anchors, `length`. Module `Anchors`, file
  `anchors.dfy`.
- **Box encoding** (`bbox_transform`). For each candidate box and its
  ground-truth box it computes six regression targets: a centre offset per
  axis in units of the candidate's extent, and the log of the extent ratio
  per axis. Module `BboxTransform`, file `bbox_transform.dfy`.
- **Box decoding** (`bbox_transform_inv`). It applies delta rows to base
  boxes, six columns at a time. Module `BboxTransform`.
- **Box clipping** (`clip_boxes`). It clamps each column of every six-column
  group into the volume `[0, size - 1]` of its axis. Module `Clipping`, file
  `clip_boxes.dfy`.

Module `Boxes` (`boxes.dfy`) holds the shared vocabulary:
- rows of reals;
- matrices that keep their column count even when they have no rows;
- extents, centres and six-column groups.

Arrays are sequences of rows of `real`. The routines' in-place updates
become pure functions that return a new matrix. The natural logarithm and
the exponential are not defined here. They are passed to the routines as
function parameters `ln` and `exp`. A lemma that needs one of their laws
lists it as a precondition. The laws used are:
- `exp(ln r) = r` for `r > 0`;
- `exp(0) = 1`;
- `ln(1) = 0`;
- `exp(x) > 0`.

The base anchors come from a generator that is not part of this model. They
are a parameter of `Anchors.GenerateAnchorsPre`.

Decoding and clipping work on one six-column group at a time. Every strided
column access `a[:, c::6]` reads and writes inside a single group. So
applying the routine's column assignments group by group gives the same
result as applying each assignment to all groups in turn. The models are
therefore stated per group (`Boxes.Group`) and lifted to rows and matrices.

## Model

| member | source | states |
|---|---|---|
| `BboxTransform.EncodeBox` | lib/model/bbox_transform.py:14-39 | On each axis, the target's centre column times the candidate's extent equals the difference of the two centres, and its size column is ln of the extent ratio. The columns are ordered dx, dy, dz, dw, dh, dd. |
| `BboxTransform.Encode` | lib/model/bbox_transform.py:13-40 | One six-column target row per (candidate, ground truth) pair. Row i is the encoding of pair i. |
| `BboxTransform.EncodeSelfIsZero` | lib/model/bbox_transform.py:14-36 | Encoding boxes against themselves gives all-zero targets, given ln(1) = 0. |
| `BboxTransform.DecodeBox` | lib/model/bbox_transform.py:48-84 | On each axis, the decoded high minus low equals exp(size delta) times the base extent. The midpoint of the decoded corners equals centre delta times base extent plus base centre. |
| `BboxTransform.Decode` | lib/model/bbox_transform.py:43-86 | The result has the shape of the deltas. With no base boxes it has zero rows and the deltas' column count. Otherwise every six-column group of row i is that group of deltas decoded against base box i alone. |
| `BboxTransform.DecodeRowGroup` | lib/model/bbox_transform.py:56-84 | Group g of a decoded row depends only on group g of the delta row: the strided slices `c::6` pair up column by column. |
| `BboxTransform.DecodeBoxZero` | lib/model/bbox_transform.py:48-84 | A zero delta group turns base box (x1, y1, z1, x2, y2, z2) into (x1, y1, z1, x2 + 1, y2 + 1, z2 + 1), given exp(0) = 1. |
| `BboxTransform.DecodeZeroDeltas` | lib/model/bbox_transform.py:43-86 | All-zero deltas decode every group of row i to base box i with its high corner moved out by one. |
| `BboxTransform.DecodeBoxOriented` | lib/model/bbox_transform.py:67-84 | If exp is positive and the base box has positive extents, the decoded high corner lies strictly above the low corner on every axis. |
| `BboxTransform.DecodeKeepsOrientation` | lib/model/bbox_transform.py:56-84 | The same orientation fact for every group of every decoded row. |
| `BboxTransform.RoundTripAxis` | lib/model/bbox_transform.py:14-84 | On one axis, decoding an encoded target gives the ground truth's low corner exactly and its high corner plus one. |
| `BboxTransform.RoundTripBox` | lib/model/bbox_transform.py:14-84 | Decoding the encoding of g against e gives g with its high corner moved out by one, when exp inverts ln on positive reals and both boxes have positive extents. |
| `BboxTransform.RoundTrip` | lib/model/bbox_transform.py:13-86 | decode(ex, encode(ex, gt)) has one row per ground-truth box. Row i is gt[i] with low corners equal and high corners plus one. |
| `Clipping.ClampSpec` | lib/model/bbox_transform.py:95 | max(min(v, hi), 0) is never negative and never above a non-negative hi. It is v when v is in range, the nearer end otherwise, and 0 when the range is empty. |
| `Clipping.ClampIdempotent` | lib/model/bbox_transform.py:95 | Clamping a clamped value to the same bound changes nothing. |
| `Clipping.ClipGroup` | lib/model/bbox_transform.py:95-105 | As written: columns 0 to 4 of a group are clamped from their own value, with width - 1 for x, height - 1 for y and depth - 1 for z. Column 5 (z2) is the already-clipped column 4 (y2) clamped to depth - 1. |
| `Clipping.ClipGroupCorrected` | lib/model/bbox_transform.py:95-105 | As intended: every column of a group is clamped from its own value to its axis's bound. |
| `Clipping.ClipRowGroup` | lib/model/bbox_transform.py:95-105 | Group g of a row clipped as written is group g clipped on its own. |
| `Clipping.ClipRowCorrectedGroup` | lib/model/bbox_transform.py:95-105 | Group g of a row clipped as intended is group g clipped on its own. |
| `Clipping.ClipBoxes` | lib/model/bbox_transform.py:89-106 | `clip_boxes` as written: the shape is kept and every group of every row is clipped as `ClipGroup` states. |
| `Clipping.ClipBoxesCorrected` | lib/model/bbox_transform.py:89-106 | `clip_boxes` as intended: the shape is kept and every group is clipped as `ClipGroupCorrected` states. |
| `Clipping.ClipGroupInRange` | lib/model/bbox_transform.py:95-105 | Every value of a group clipped as written or as intended is at least 0, and at most its column's bound whenever that bound is non-negative. |
| `Clipping.ClipBoxesInRange` | lib/model/bbox_transform.py:94-105 | After either clipping, every value is at least 0 and at most its column's bound whenever that bound is non-negative. |
| `Clipping.ClipGroupIdempotent` | lib/model/bbox_transform.py:95-105 | Clipping a group twice as written gives the same group as clipping once. |
| `Clipping.ClipBoxesIdempotent` | lib/model/bbox_transform.py:89-106 | Clipping a matrix twice as written equals clipping it once. |
| `Clipping.ClipBoxesCorrectedIdempotent` | lib/model/bbox_transform.py:89-106 | Clipping a matrix twice as intended equals clipping it once. |
| `Clipping.ClipGroupCorrectedFixedPoint` | lib/model/bbox_transform.py:95-105 | In a volume at least one voxel on each side, the intended clipping leaves a group unchanged exactly when all its values are in range (both directions). |
| `Clipping.ClipBoxesCorrectedFixedPoints` | lib/model/bbox_transform.py:89-106 | In such a volume, the intended clipping leaves a matrix unchanged if and only if every value is already in range. |
| `Clipping.ClipBoxesColumns` | lib/model/bbox_transform.py:95-105 | As written, an in-range box keeps x1, y1, z1, x2 and y2, but its z2 becomes its y2 clamped to depth - 1. |
| `Clipping.ClipGroupIgnoresZ2` | lib/model/bbox_transform.py:103-105 | As written, a group's clipped result does not depend on its incoming z2. |
| `Clipping.ClipBoxesIgnoresZ2` | lib/model/bbox_transform.py:103-105 | As written, two matrices that differ only in their z2 columns clip to the same matrix. |
| `Clipping.ClipGroupZ2Counterexample` | lib/model/bbox_transform.py:105 | In a 10 x 10 x 10 volume, the in-range box (0, 0, 0, 1, 2, 1) clips as written to (0, 0, 0, 1, 2, 2). The intended clipping leaves it unchanged. |
| `Clipping.ClipBoxesZ2Counterexample` | lib/model/bbox_transform.py:89-106 | The same discrepancy for the one-row matrix holding that box. |
| `Anchors.GenerateAnchorsPre` | lib/layer_utils/snippets.py:13-31 | `length` equals the number of rows, which is Count(height) * Count(width) * Count(depth) * A for A base anchors. It is 0 exactly when some grid dimension is at most 0 or there are no base anchors. Every row has six columns. |
| `Anchors.PlaneAt` | lib/layer_utils/snippets.py:23-24 | In one y-plane of the raveled mesh, row ix * D + iz holds x offset xs[ix] and z offset zs[iz] on both corners. |
| `Anchors.ShiftsAt` | lib/layer_utils/snippets.py:23-24 | Row (iy * W + ix) * D + iz of the raveled mesh is (xs[ix], ys[iy], zs[iz], xs[ix], ys[iy], zs[iz]): depth varies fastest, then width, then height. |
| `Anchors.ShiftsAreShifts` | lib/layer_utils/snippets.py:24 | Every shift row has six columns and moves the low and the high corner by the same amount. |
| `Anchors.CellAtIndex` | lib/layer_utils/snippets.py:23-25 | Every row index below H * W * D belongs to a grid cell inside the grid, and the cell index of that cell is the row index. |
| `Anchors.IndexCellAt` | lib/layer_utils/snippets.py:23-25 | Conversely, the cell index of any cell inside the grid leads back to that cell. |
| `Anchors.TileAt` | lib/layer_utils/snippets.py:27-28 | After the broadcast add and the reshape to (K * A, 6), row k * A + a is base anchor a plus shift k. |
| `Anchors.TileKeepsExtents` | lib/layer_utils/snippets.py:27-28 | Tiling with shifts that move both corners alike keeps the extents of base anchor n mod A in row n. |
| `Anchors.CellShiftAt` | lib/layer_utils/snippets.py:19-24 | The shift of grid cell (iy, ix, iz) is (ix * s0, iy * s1, iz * s2) on both corners, with s = feat_stride. |
| `Anchors.AnchorAt` | lib/layer_utils/snippets.py:19-28 | Anchor a of cell (iy, ix, iz) sits at row ((iy * W + ix) * D + iz) * A + a. It is base anchor a moved by (ix * s0, iy * s1, iz * s2) on both corners. |
| `Anchors.AnchorRow` | lib/layer_utils/snippets.py:19-28 | Conversely, any row n is base anchor n mod A moved by the shift of cell `CellAt(n / A, W, D)`. Every row is some cell's anchor. |
| `Anchors.AnchorsKeepExtents` | lib/layer_utils/snippets.py:24-28 | Every anchor has the same extents on all three axes as the base anchor it comes from (base anchor n mod A for row n). |
| `Anchors.FirstCellIsBase` | lib/layer_utils/snippets.py:27-28 | For a non-empty grid, rows 0 to A - 1 are the base anchors in order. |

## Left out

- The base-anchor generator `generate_anchors` (imported at lib/layer_utils/snippets.py:11) is not part of this model. Its result is the parameter `base`, and the `anchor_scales`/`anchor_ratios` arguments play no part.
- `lib/utils/crop_and_resize.py` is not modelled. It is an unfinished stub that never returns a value.
- Floating point is not modelled. The model uses exact reals: no IEEE rounding, no float32 cast of the anchors (snippets.py:28), no dtype coercion of the boxes (bbox_transform.py:47), and no NaN or infinity.
- The numerics of `exp` and `log` are not modelled. Both are parameters, and only the laws listed above are assumed, where a lemma needs them.
- In-place mutation in `clip_boxes` and the aliasing it causes for the caller are not modelled. The clipped matrix is returned instead.
- NumPy broadcasting outside the regular shapes is not modelled. An example is a one-row ground-truth array against many candidates.
- Anchors.GenerateAnchorsPre: `length` is an unbounded integer. The int32 cast at snippets.py:29 is not modelled, because a wrap-around would need more than 2^31 anchors.
- Anchors.GenerateAnchorsPre: the base anchors are required to have six columns each, as the reshape at snippets.py:27 demands.
- BboxTransform.Encode: it requires the same number of candidate and ground-truth rows. It also requires every candidate extent to be non-zero. The source divides by these extents and would give infinities or NaN.
- BboxTransform.Decode: when there are base boxes, it requires one delta row per box and a column count that is a multiple of six. For a column count 6k + r with r from 1 to 5, one pair of strided slices has k + 1 columns against k: dx against dw when r <= 3, dy against dh when r = 4, dz against dd when r = 5. The source then raises a broadcast error at lines 63-84, so the requirement excludes only shapes the source rejects. A row count other than the number of boxes also raises, except for a single base box, which broadcasts against every delta row; that case is not modelled.
- Clipping.ClipBoxes: it requires a column count that is a multiple of six. The source also runs on some other widths, where the last, partial group is clamped column by column.
- Clipping.ClipBoxesCorrected: same column-count requirement as `Clipping.ClipBoxes`.
- Clipping.ClipBoxesCorrectedFixedPoints: stated only for volumes at least one voxel on each side. When a bound is negative, the only fixed value of its column is 0.
- Clipping.ClipBoxesColumns: stated for such volumes only, for the same reason.

## Findings

| source | as written | input that shows it | evidently intended | confidence | as-written member | corrected member |
|---|---|---|---|---|---|---|
| lib/model/bbox_transform.py:105 | The z2 columns (`5::6`) are assigned the clamp of the y2 columns (`4::6`), after y2 has already been clipped. The incoming z2 is discarded. | In a 10 x 10 x 10 volume, the box (0, 0, 0, 1, 2, 1) lies inside, yet it comes out as (0, 0, 0, 1, 2, 2). | Clamp the z2 columns from their own values to depth - 1, as lines 95-103 do for the other columns. | not executed | `Clipping.ClipBoxes` (with `Clipping.ClipBoxesZ2Counterexample` and `Clipping.ClipBoxesIgnoresZ2`) | `Clipping.ClipBoxesCorrected` (with `Clipping.ClipBoxesCorrectedFixedPoints` and `Clipping.ClipBoxesCorrectedIdempotent`) |
