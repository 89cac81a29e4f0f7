/**
 Min-max scaling of the feature columns (`MinMaxScaler().fit_transform`
 with its default target range [0, 1]): each column is fitted on its own
 smallest and largest value over all rows, and every cell becomes its
 distance from the column minimum divided by the column's range. A column
 whose range is zero is divided by one instead, so it becomes all zeros.
 Arithmetic is exact here, on `real`.
 */
module Scaling {
  import opened Frames

  /** The smallest cell of column `j`. */
  function ColumnMin(m: Matrix, width: nat, j: nat): (lo: real)
    requires |m| > 0 && Rectangular(m, width) && j < width
    ensures forall i :: 0 <= i < |m| ==> lo <= m[i][j]
    ensures exists i :: 0 <= i < |m| && m[i][j] == lo
    decreases |m|
  {
    if |m| == 1 then m[0][j]
    else
      var rest := ColumnMin(m[1..], width, j);
      assert forall i :: 1 <= i < |m| ==> m[1..][i - 1] == m[i];
      if m[0][j] <= rest then m[0][j] else rest
  }

  /** The largest cell of column `j`. */
  function ColumnMax(m: Matrix, width: nat, j: nat): (hi: real)
    requires |m| > 0 && Rectangular(m, width) && j < width
    ensures forall i :: 0 <= i < |m| ==> m[i][j] <= hi
    ensures exists i :: 0 <= i < |m| && m[i][j] == hi
    decreases |m|
  {
    if |m| == 1 then m[0][j]
    else
      var rest := ColumnMax(m[1..], width, j);
      assert forall i :: 1 <= i < |m| ==> m[1..][i - 1] == m[i];
      if m[0][j] >= rest then m[0][j] else rest
  }

  /** The divisor of a column: its range, or one when the range is zero. */
  function Divisor(lo: real, hi: real): real {
    if hi - lo == 0.0 then 1.0 else hi - lo
  }

  /** One cell mapped from the column's [lo, hi] onto [0, 1]. */
  function ScaleCell(x: real, lo: real, hi: real): real {
    (x - lo) / Divisor(lo, hi)
  }

  /** `inverse_transform` of one cell: back from [0, 1] onto [lo, hi]. */
  function UnscaleCell(y: real, lo: real, hi: real): real {
    y * Divisor(lo, hi) + lo
  }

  /** A cell inside its column's bounds is mapped into [0, 1]; the column
      minimum goes to 0 and, when the column is not constant, the maximum
      to 1. */
  lemma ScaleCellBounds(x: real, lo: real, hi: real)
    requires lo <= x <= hi
    ensures 0.0 <= ScaleCell(x, lo, hi) <= 1.0
    ensures x == lo ==> ScaleCell(x, lo, hi) == 0.0
    ensures lo < hi && x == hi ==> ScaleCell(x, lo, hi) == 1.0
  {
  }

  /** Scaling one column keeps the order of its cells, both ways. */
  lemma ScaleCellOrder(x: real, y: real, lo: real, hi: real)
    requires lo <= x <= hi && lo <= y <= hi
    ensures x <= y <==> ScaleCell(x, lo, hi) <= ScaleCell(y, lo, hi)
  {
    var d := Divisor(lo, hi);
    assert d > 0.0;
    assert ScaleCell(x, lo, hi) * d == x - lo;
    assert ScaleCell(y, lo, hi) * d == y - lo;
    assert (ScaleCell(y, lo, hi) - ScaleCell(x, lo, hi)) * d == y - x;
  }

  /** Unscaling undoes scaling, for every cell value. */
  lemma UnscaleScaleCell(x: real, lo: real, hi: real)
    ensures UnscaleCell(ScaleCell(x, lo, hi), lo, hi) == x
  {
  }

  /** Every cell of `m` lies in [0, 1]. */
  predicate InUnitInterval(m: Matrix) {
    forall i, j :: 0 <= i < |m| && 0 <= j < |m[i]| ==> 0.0 <= m[i][j] <= 1.0
  }

  /** Every cell of `m` mapped from its column's fitted [min, max] onto
      [0, 1]; the result has the shape of `m` and no cell outside [0, 1]. */
  function Scaled(m: Matrix, width: nat): (s: Matrix)
    requires |m| > 0 && width > 0 && Rectangular(m, width)
    ensures |s| == |m| && Rectangular(s, width) && InUnitInterval(s)
  {
    var s := seq(|m|, i requires 0 <= i < |m| =>
      seq(width, j requires 0 <= j < width =>
        ScaleCell(m[i][j], ColumnMin(m, width, j), ColumnMax(m, width, j))));
    forall i, j | 0 <= i < |s| && 0 <= j < |s[i]| ensures 0.0 <= s[i][j] <= 1.0 {
      ScaleCellBounds(m[i][j], ColumnMin(m, width, j), ColumnMax(m, width, j));
    }
    s
  }

  /** `MinMaxScaler().fit_transform(features)`. The scaler refuses an
      input without rows, and then one without columns; otherwise the
      result has the input's shape and every cell lies in [0, 1]. */
  function FitTransform(m: Matrix, width: nat): (r: Result<Matrix>)
    requires Rectangular(m, width)
    ensures r == Err(NoSamples) <==> |m| == 0
    ensures r == Err(NoFeatures) <==> |m| > 0 && width == 0
    ensures r.Ok? <==> |m| > 0 && width > 0
    ensures r.Ok? ==> |r.value| == |m| && Rectangular(r.value, width) && InUnitInterval(r.value)
  {
    if |m| == 0 then Err(NoSamples)
    else if width == 0 then Err(NoFeatures)
    else Ok(Scaled(m, width))
  }

  /** Scaling keeps the order of the cells within each column, in both
      directions. */
  lemma ScalingKeepsOrder(m: Matrix, width: nat, a: nat, b: nat, j: nat)
    requires Rectangular(m, width) && a < |m| && b < |m| && j < width
    ensures FitTransform(m, width).Ok?
    ensures m[a][j] <= m[b][j] <==> FitTransform(m, width).value[a][j] <= FitTransform(m, width).value[b][j]
  {
    var lo, hi, s := ColumnMin(m, width, j), ColumnMax(m, width, j), FitTransform(m, width).value;
    assert s[a][j] == ScaleCell(m[a][j], lo, hi) && s[b][j] == ScaleCell(m[b][j], lo, hi);
    ScaleCellOrder(m[a][j], m[b][j], lo, hi);
  }

  /** The column minimum is scaled to 0 and, in a column that is not
      constant, the maximum to 1; a constant column becomes all zeros. */
  lemma ScalingExtremes(m: Matrix, width: nat, i: nat, j: nat)
    requires Rectangular(m, width) && i < |m| && j < width
    ensures FitTransform(m, width).Ok?
    ensures m[i][j] == ColumnMin(m, width, j) ==> FitTransform(m, width).value[i][j] == 0.0
    ensures ColumnMin(m, width, j) < ColumnMax(m, width, j) && m[i][j] == ColumnMax(m, width, j) ==>
      FitTransform(m, width).value[i][j] == 1.0
  {
    var lo, hi := ColumnMin(m, width, j), ColumnMax(m, width, j);
    assert FitTransform(m, width).value[i][j] == ScaleCell(m[i][j], lo, hi);
    ScaleCellBounds(m[i][j], lo, hi);
  }

  /** `inverse_transform` with the fitted bounds gives back every original
      cell: scaling loses no information, constant columns included. */
  lemma InverseTransformRoundTrip(m: Matrix, width: nat, i: nat, j: nat)
    requires Rectangular(m, width) && i < |m| && j < width
    ensures FitTransform(m, width).Ok?
    ensures UnscaleCell(FitTransform(m, width).value[i][j], ColumnMin(m, width, j), ColumnMax(m, width, j)) == m[i][j]
  {
    var lo, hi := ColumnMin(m, width, j), ColumnMax(m, width, j);
    assert FitTransform(m, width).value[i][j] == ScaleCell(m[i][j], lo, hi);
    UnscaleScaleCell(m[i][j], lo, hi);
  }
}
