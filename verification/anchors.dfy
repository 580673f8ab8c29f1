/** `generate_anchors_pre`: every base anchor translated to every cell of a
    height x width x depth grid of feature-map positions. The base anchors
    come from a generator that is not part of this model, so they are a
    parameter here. */
module Anchors {
  import opened Boxes

  /** `feat_stride`: the distance between neighbouring cells along x, y and z. */
  datatype Stride = Stride(x: real, y: real, z: real)

  /** The routine's result: the anchor rows and their count `length`. */
  datatype AnchorSet = AnchorSet(anchors: seq<Row>, length: int)

  /** The number of entries of `arange(0, n)`: n when positive, otherwise 0. */
  function Count(n: int): nat {
    if n > 0 then n else 0
  }

  /** The offset of cell i along an axis with the given stride. */
  function Offset(i: int, step: real): real {
    i as real * step
  }

  /** `arange(0, n) * step`. */
  function Arange(n: int, step: real): seq<real> {
    seq(Count(n), i => Offset(i, step))
  }

  /** Every row has exactly six columns. */
  predicate SixColumns(rows: seq<Row>) {
    forall i :: 0 <= i < |rows| ==> |rows[i]| == 6
  }

  /** One row of `shifts`: the same offset for the low and the high corner. */
  function ShiftRow(x: real, y: real, z: real): Row {
    [x, y, z, x, y, z]
  }

  /** A shift moves both corners of a box by the same amount. */
  predicate IsShift(s: Row) {
    |s| == 6 && s[0] == s[3] && s[1] == s[4] && s[2] == s[5]
  }

  /** The shifts of one grid line: x and y fixed, z running. */
  function Line(x: real, y: real, zs: seq<real>): seq<Row> {
    seq(|zs|, k requires 0 <= k < |zs| => ShiftRow(x, y, zs[k]))
  }

  /** The shifts of one grid plane: y fixed, x outer, z inner. */
  function Plane(xs: seq<real>, y: real, zs: seq<real>): (r: seq<Row>)
    ensures |r| == |xs| * |zs|
    decreases |xs|
  {
    if |xs| == 0 then [] else Line(xs[0], y, zs) + Plane(xs[1..], y, zs)
  }

  /** `meshgrid(xs, ys, zs)` with its default 'xy' indexing has shape
      (|ys|, |xs|, |zs|); raveling it in row-major order visits y outermost,
      then x, then z. */
  function Shifts(xs: seq<real>, ys: seq<real>, zs: seq<real>): (r: seq<Row>)
    ensures |r| == |ys| * |xs| * |zs|
    decreases |ys|
  {
    if |ys| == 0 then []
    else
      MulSucc(|ys| - 1, |xs| * |zs|);
      Plane(xs, ys[0], zs) + Shifts(xs, ys[1..], zs)
  }

  /** Adds a shift to a box, column by column. */
  function Translate(b: Row, s: Row): Row
    requires |b| == 6 && |s| == 6
  {
    seq(6, j requires 0 <= j < 6 => b[j] + s[j])
  }

  /** The broadcast add followed by the reshape to (K * A, 6): for each shift
      in turn, all base anchors moved by it. */
  function Tile(shifts: seq<Row>, base: seq<Row>): (r: seq<Row>)
    requires SixColumns(shifts) && SixColumns(base)
    ensures |r| == |shifts| * |base|
    decreases |shifts|
  {
    if |shifts| == 0 then []
    else
      MulSucc(|shifts| - 1, |base|);
      seq(|base|, a requires 0 <= a < |base| => Translate(base[a], shifts[0]))
      + Tile(shifts[1..], base)
  }

  /** The row of `shifts` that belongs to grid cell (iy, ix, iz). */
  function CellIndex(width: nat, depth: nat, iy: nat, ix: nat, iz: nat): nat {
    (iy * width + ix) * depth + iz
  }

  /** The shift of grid cell (iy, ix, iz). */
  function CellShift(stride: Stride, iy: nat, ix: nat, iz: nat): Row {
    ShiftRow(Offset(ix, stride.x), Offset(iy, stride.y), Offset(iz, stride.z))
  }

  /** A grid cell: row iy along the height, column ix along the width and
      slice iz along the depth. */
  datatype Position = Position(iy: nat, ix: nat, iz: nat)

  /** The cell that row c of `shifts` belongs to: the inverse of
      `CellIndex`. */
  function CellAt(c: nat, width: nat, depth: nat): Position
    requires width > 0 && depth > 0
  {
    Position(c / depth / width, c / depth % width, c % depth)
  }

  /** The shift of a cell. */
  function PositionShift(stride: Stride, p: Position): Row {
    CellShift(stride, p.iy, p.ix, p.iz)
  }

  /** The number of anchors for a grid and A base anchors. */
  function AnchorCount(height: int, width: int, depth: int, a: nat): nat {
    Count(height) * Count(width) * Count(depth) * a
  }

  /** `generate_anchors_pre`: the anchors of every grid cell, cell-major and
      base-anchor-minor, with their number. The count is K * A, where K is
      the number of grid cells, and it is zero exactly when the grid or the
      base is empty. */
  function GenerateAnchorsPre(height: int, width: int, depth: int, stride: Stride,
                              base: seq<Row>): (r: AnchorSet)
    requires SixColumns(base)
    ensures r.length == |r.anchors| == AnchorCount(height, width, depth, |base|)
    ensures r.length == 0 <==> height <= 0 || width <= 0 || depth <= 0 || |base| == 0
    ensures SixColumns(r.anchors)
  {
    var shifts := Shifts(Arange(width, stride.x), Arange(height, stride.y), Arange(depth, stride.z));
    ShiftsAreShifts(Arange(width, stride.x), Arange(height, stride.y), Arange(depth, stride.z));
    var anchors := Tile(shifts, base);
    TileSixColumns(shifts, base);
    ProductZero(Count(height), Count(width), Count(depth), |base|);
    AnchorSet(anchors, |anchors|)
  }

  // ---------------------------------------------------------------------------
  // Arithmetic helpers.

  lemma MulSucc(n: nat, m: nat)
    ensures (n + 1) * m == n * m + m
  {
  }

  /** A product of naturals is zero exactly when one of its factors is. */
  lemma ProductZero(h: nat, w: nat, d: nat, a: nat)
    ensures h * w * d * a == 0 <==> h == 0 || w == 0 || d == 0 || a == 0
  {
  }

  /** Index k * n + j with j < n lies below m * n whenever k < m. */
  lemma IndexBound(k: nat, j: nat, m: nat, n: nat)
    requires k < m && j < n
    ensures k * n + j < m * n
  {
    MulSucc(k, n);
    MulMonotone(k + 1, m, n);
  }

  lemma MulMonotone(x: nat, y: nat, n: nat)
    requires x <= y
    ensures x * n <= y * n
  {
  }

  /** Splits an index below m * n into a block k < m and an offset j < n. */
  lemma DivMod(i: nat, m: nat, n: nat)
    requires i < m * n
    ensures n > 0
    ensures i == (i / n) * n + i % n && i / n < m && i % n < n
  {
  }

  // ---------------------------------------------------------------------------
  // Shifts.

  /** Row (ix, iz) of a plane. */
  lemma {:induction false} PlaneAt(xs: seq<real>, y: real, zs: seq<real>, ix: nat, iz: nat)
    requires ix < |xs| && iz < |zs|
    ensures ix * |zs| + iz < |Plane(xs, y, zs)|
    ensures Plane(xs, y, zs)[ix * |zs| + iz] == ShiftRow(xs[ix], y, zs[iz])
    decreases ix
  {
    IndexBound(ix, iz, |xs|, |zs|);
    var p := Plane(xs, y, zs);
    var line := Line(xs[0], y, zs);
    assert p == line + Plane(xs[1..], y, zs);
    if ix > 0 {
      PlaneAt(xs[1..], y, zs, ix - 1, iz);
      MulSucc(ix - 1, |zs|);
      assert xs[1..][ix - 1] == xs[ix];
    }
  }

  /** The cell index lies below the number of cells. */
  lemma CellIndexBound(h: nat, w: nat, d: nat, iy: nat, ix: nat, iz: nat)
    requires iy < h && ix < w && iz < d
    ensures CellIndex(w, d, iy, ix, iz) < h * w * d
  {
    IndexBound(iy, ix, h, w);
    IndexBound(iy * w + ix, iz, h * w, d);
  }

  /** Every row index below the number of cells belongs to a cell of the
      grid, and `CellIndex` maps that cell back to the index. */
  lemma CellAtIndex(h: nat, w: nat, d: nat, c: nat)
    requires c < h * w * d
    ensures w > 0 && d > 0
    ensures CellAt(c, w, d).iy < h && CellAt(c, w, d).ix < w && CellAt(c, w, d).iz < d
    ensures CellIndex(w, d, CellAt(c, w, d).iy, CellAt(c, w, d).ix, CellAt(c, w, d).iz) == c
  {
    DivMod(c, h * w, d);
    DivMod(c / d, h, w);
  }

  /** The cell index of a grid cell leads back to that cell. */
  lemma IndexCellAt(w: nat, d: nat, iy: nat, ix: nat, iz: nat)
    requires ix < w && iz < d
    ensures CellAt(CellIndex(w, d, iy, ix, iz), w, d) == Position(iy, ix, iz)
  {
    var p := iy * w + ix;
    DivModUnique(p * d + iz, d, p, iz);
    DivModUnique(p, w, iy, ix);
  }

  /** Division and remainder are determined by any decomposition with an
      offset below the divisor. */
  lemma DivModUnique(i: nat, n: nat, q: nat, r: nat)
    requires r < n && i == q * n + r
    ensures i / n == q && i % n == r
  {
    if i / n < q {
      MulMonotone(i / n + 1, q, n);
    } else if i / n > q {
      MulMonotone(q + 1, i / n, n);
    }
  }

  /** One step along y moves the cell index by a whole plane of w * d cells. */
  lemma CellIndexStep(w: nat, d: nat, iy: nat, ix: nat, iz: nat)
    requires iy > 0
    ensures CellIndex(w, d, iy, ix, iz) == CellIndex(w, d, iy - 1, ix, iz) + w * d
  {
  }

  /** Row (iy, ix, iz) of the raveled mesh of xs (w entries) by ys by zs
      (d entries): y outermost, z fastest. */
  lemma {:induction false} ShiftsAt(xs: seq<real>, ys: seq<real>, zs: seq<real>, w: nat, d: nat,
                                     iy: nat, ix: nat, iz: nat)
    requires |xs| == w && |zs| == d
    requires iy < |ys| && ix < w && iz < d
    ensures CellIndex(w, d, iy, ix, iz) < |Shifts(xs, ys, zs)|
    ensures Shifts(xs, ys, zs)[CellIndex(w, d, iy, ix, iz)] == ShiftRow(xs[ix], ys[iy], zs[iz])
    decreases iy
  {
    if iy == 0 {
      ShiftsFirstPlane(xs, ys, zs, w, d, ix, iz);
    } else {
      ShiftsAt(xs, ys[1..], zs, w, d, iy - 1, ix, iz);
      ShiftsStep(xs, ys, zs, w, d, iy, ix, iz);
    }
  }

  /** The first y-plane of the mesh is the plane of ys[0]. */
  lemma ShiftsFirstPlane(xs: seq<real>, ys: seq<real>, zs: seq<real>, w: nat, d: nat, ix: nat, iz: nat)
    requires |xs| == w && |zs| == d
    requires 0 < |ys| && ix < w && iz < d
    ensures CellIndex(w, d, 0, ix, iz) < |Shifts(xs, ys, zs)|
    ensures Shifts(xs, ys, zs)[CellIndex(w, d, 0, ix, iz)] == ShiftRow(xs[ix], ys[0], zs[iz])
  {
    CellIndexBound(|ys|, w, d, 0, ix, iz);
    assert Shifts(xs, ys, zs) == Plane(xs, ys[0], zs) + Shifts(xs, ys[1..], zs);
    PlaneAt(xs, ys[0], zs, ix, iz);
    assert CellIndex(w, d, 0, ix, iz) == ix * d + iz;
  }

  /** A later y-plane of the mesh is a plane of the mesh without ys[0]. */
  lemma ShiftsStep(xs: seq<real>, ys: seq<real>, zs: seq<real>, w: nat, d: nat,
                   iy: nat, ix: nat, iz: nat)
    requires |xs| == w && |zs| == d
    requires 0 < iy < |ys| && ix < w && iz < d
    requires CellIndex(w, d, iy - 1, ix, iz) < |Shifts(xs, ys[1..], zs)|
    requires Shifts(xs, ys[1..], zs)[CellIndex(w, d, iy - 1, ix, iz)]
             == ShiftRow(xs[ix], ys[1..][iy - 1], zs[iz])
    ensures CellIndex(w, d, iy, ix, iz) < |Shifts(xs, ys, zs)|
    ensures Shifts(xs, ys, zs)[CellIndex(w, d, iy, ix, iz)] == ShiftRow(xs[ix], ys[iy], zs[iz])
  {
    CellIndexStep(w, d, iy, ix, iz);
    assert Shifts(xs, ys, zs) == Plane(xs, ys[0], zs) + Shifts(xs, ys[1..], zs);
    assert ys[1..][iy - 1] == ys[iy];
  }

  /** Every row of the mesh moves both corners alike. */
  lemma {:induction false} ShiftsAreShifts(xs: seq<real>, ys: seq<real>, zs: seq<real>)
    ensures SixColumns(Shifts(xs, ys, zs))
    ensures forall c :: 0 <= c < |Shifts(xs, ys, zs)| ==> IsShift(Shifts(xs, ys, zs)[c])
    decreases |ys|
  {
    if |ys| > 0 {
      ShiftsAreShifts(xs, ys[1..], zs);
      PlaneAreShifts(xs, ys[0], zs);
    }
  }

  lemma {:induction false} PlaneAreShifts(xs: seq<real>, y: real, zs: seq<real>)
    ensures forall c :: 0 <= c < |Plane(xs, y, zs)| ==>
      |Plane(xs, y, zs)[c]| == 6 && IsShift(Plane(xs, y, zs)[c])
    decreases |xs|
  {
    if |xs| > 0 {
      PlaneAreShifts(xs[1..], y, zs);
    }
  }

  // ---------------------------------------------------------------------------
  // Tiling.

  /** Row k * A + a of the tiling is base anchor a moved by shift k. */
  lemma {:induction false} TileAt(shifts: seq<Row>, base: seq<Row>, k: nat, a: nat)
    requires SixColumns(shifts) && SixColumns(base)
    requires k < |shifts| && a < |base|
    ensures k * |base| + a < |Tile(shifts, base)|
    ensures Tile(shifts, base)[k * |base| + a] == Translate(base[a], shifts[k])
    decreases k
  {
    IndexBound(k, a, |shifts|, |base|);
    var head := seq(|base|, b requires 0 <= b < |base| => Translate(base[b], shifts[0]));
    assert Tile(shifts, base) == head + Tile(shifts[1..], base);
    if k > 0 {
      TileAt(shifts[1..], base, k - 1, a);
      MulSucc(k - 1, |base|);
      assert shifts[1..][k - 1] == shifts[k];
    }
  }

  lemma TileSixColumns(shifts: seq<Row>, base: seq<Row>)
    requires SixColumns(shifts) && SixColumns(base)
    ensures SixColumns(Tile(shifts, base))
  {
  }

  /** Every row of a tiling by shifts has the extents of the base anchor it
      was made from. */
  lemma TileKeepsExtents(shifts: seq<Row>, base: seq<Row>)
    requires SixColumns(shifts) && SixColumns(base)
    requires forall c :: 0 <= c < |shifts| ==> IsShift(shifts[c])
    ensures SixColumns(Tile(shifts, base))
    ensures forall n, axis: Axis :: 0 <= n < |Tile(shifts, base)| ==>
      Extent(Tile(shifts, base)[n], axis) == Extent(base[n % |base|], axis)
  {
    TileSixColumns(shifts, base);
    var t := Tile(shifts, base);
    forall n, axis: Axis | 0 <= n < |t|
      ensures Extent(t[n], axis) == Extent(base[n % |base|], axis)
    {
      DivMod(n, |shifts|, |base|);
      TileAt(shifts, base, n / |base|, n % |base|);
      TranslateKeepsExtent(base[n % |base|], shifts[n / |base|], axis);
    }
  }

  /** A shift leaves every extent of a box as it was. */
  lemma TranslateKeepsExtent(b: Row, s: Row, axis: Axis)
    requires |b| == 6 && IsShift(s)
    ensures Extent(Translate(b, s), axis) == Extent(b, axis)
  {
  }

  // ---------------------------------------------------------------------------
  // Properties of the anchors.

  /** Entry i of `arange(0, n) * step`. */
  lemma ArangeAt(n: int, step: real, i: nat)
    requires i < n
    ensures i < |Arange(n, step)| && Arange(n, step)[i] == Offset(i, step)
  {
  }

  /** The shift of cell (iy, ix, iz) in the raveled mesh of the grid. */
  lemma CellShiftAt(height: int, width: int, depth: int, stride: Stride, iy: nat, ix: nat, iz: nat)
    requires iy < height && ix < width && iz < depth
    ensures CellIndex(width, depth, iy, ix, iz)
            < |Shifts(Arange(width, stride.x), Arange(height, stride.y), Arange(depth, stride.z))|
    ensures Shifts(Arange(width, stride.x), Arange(height, stride.y), Arange(depth, stride.z))
              [CellIndex(width, depth, iy, ix, iz)]
            == CellShift(stride, iy, ix, iz)
  {
    var xs, ys, zs := Arange(width, stride.x), Arange(height, stride.y), Arange(depth, stride.z);
    ArangeAt(width, stride.x, ix);
    ArangeAt(height, stride.y, iy);
    ArangeAt(depth, stride.z, iz);
    ShiftsAt(xs, ys, zs, width, depth, iy, ix, iz);
  }

  /** Unfolds `GenerateAnchorsPre` to the tiling of the raveled mesh, for the
      lemmas below. */
  lemma GenerateIsTile(height: int, width: int, depth: int, stride: Stride, base: seq<Row>)
    requires SixColumns(base)
    ensures SixColumns(Shifts(Arange(width, stride.x), Arange(height, stride.y), Arange(depth, stride.z)))
    ensures forall c :: 0 <= c < |Shifts(Arange(width, stride.x), Arange(height, stride.y), Arange(depth, stride.z))| ==>
      IsShift(Shifts(Arange(width, stride.x), Arange(height, stride.y), Arange(depth, stride.z))[c])
    ensures GenerateAnchorsPre(height, width, depth, stride, base).anchors
            == Tile(Shifts(Arange(width, stride.x), Arange(height, stride.y), Arange(depth, stride.z)), base)
  {
    ShiftsAreShifts(Arange(width, stride.x), Arange(height, stride.y), Arange(depth, stride.z));
  }

  /** Anchor a of grid cell (iy, ix, iz) sits at row
      ((iy * W + ix) * D + iz) * A + a, and is base anchor a moved by
      (ix * sx, iy * sy, iz * sz) on both corners: depth varies fastest,
      then width, then height, and the base anchors fastest of all. */
  lemma AnchorAt(height: int, width: int, depth: int, stride: Stride, base: seq<Row>,
                 iy: nat, ix: nat, iz: nat, a: nat)
    requires SixColumns(base)
    requires iy < height && ix < width && iz < depth && a < |base|
    ensures CellIndex(width, depth, iy, ix, iz) * |base| + a
            < |GenerateAnchorsPre(height, width, depth, stride, base).anchors|
    ensures GenerateAnchorsPre(height, width, depth, stride, base)
              .anchors[CellIndex(width, depth, iy, ix, iz) * |base| + a]
            == Translate(base[a], CellShift(stride, iy, ix, iz))
  {
    GenerateIsTile(height, width, depth, stride, base);
    CellShiftAt(height, width, depth, stride, iy, ix, iz);
    var shifts := Shifts(Arange(width, stride.x), Arange(height, stride.y), Arange(depth, stride.z));
    TileAt(shifts, base, CellIndex(width, depth, iy, ix, iz), a);
  }

  /** Conversely, row n is base anchor n mod A of grid cell n / A, whose
      position is `CellAt(n / A, W, D)`: every row is the anchor that
      `AnchorAt` places there. */
  lemma AnchorRow(height: int, width: int, depth: int, stride: Stride, base: seq<Row>, n: nat)
    requires SixColumns(base)
    requires n < GenerateAnchorsPre(height, width, depth, stride, base).length
    ensures height > 0 && width > 0 && depth > 0 && |base| > 0
    ensures GenerateAnchorsPre(height, width, depth, stride, base).anchors[n]
            == Translate(base[n % |base|], PositionShift(stride, CellAt(n / |base|, width, depth)))
  {
    var h, w, d, a := Count(height), Count(width), Count(depth), |base|;
    DivMod(n, h * w * d, a);
    var cell := n / a;
    CellAtIndex(h, w, d, cell);
    var p := CellAt(cell, w, d);
    AnchorAt(height, width, depth, stride, base, p.iy, p.ix, p.iz, n % a);
  }

  /** Every anchor has the extents of the base anchor it was made from,
      base anchor n mod A: both corners moved by the same shift. */
  lemma AnchorsKeepExtents(height: int, width: int, depth: int, stride: Stride, base: seq<Row>)
    requires SixColumns(base)
    ensures forall n, axis: Axis :: 0 <= n < |GenerateAnchorsPre(height, width, depth, stride, base).anchors| ==>
      Extent(GenerateAnchorsPre(height, width, depth, stride, base).anchors[n], axis)
      == Extent(base[n % |base|], axis)
  {
    GenerateIsTile(height, width, depth, stride, base);
    TileKeepsExtents(Shifts(Arange(width, stride.x), Arange(height, stride.y), Arange(depth, stride.z)), base);
  }

  /** The anchors of the first cell, rows 0 .. A - 1, are the base anchors in
      order. */
  lemma FirstCellIsBase(height: int, width: int, depth: int, stride: Stride, base: seq<Row>)
    requires SixColumns(base)
    requires height > 0 && width > 0 && depth > 0
    ensures |base| <= |GenerateAnchorsPre(height, width, depth, stride, base).anchors|
    ensures GenerateAnchorsPre(height, width, depth, stride, base).anchors[..|base|] == base
  {
    GenerateIsTile(height, width, depth, stride, base);
    CellShiftAt(height, width, depth, stride, 0, 0, 0);
    var shifts := Shifts(Arange(width, stride.x), Arange(height, stride.y), Arange(depth, stride.z));
    assert shifts[0] == Zeros6();
    var t := Tile(shifts, base);
    assert t == seq(|base|, a requires 0 <= a < |base| => Translate(base[a], shifts[0]))
                + Tile(shifts[1..], base);
    forall a | 0 <= a < |base|
      ensures t[a] == base[a]
    {
      assert Translate(base[a], Zeros6()) == base[a];
    }
  }
}
