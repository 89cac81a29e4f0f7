/**
 `prepare_data` from the table onwards: the `winner` check, the split into
 label and feature columns, min-max scaling, expanding windows, left
 zero-padding and the one-row label shift, with what the resulting arrays
 look like.
 */
module Preparation {
  import opened Frames
  import opened Scaling
  import opened Windows

  /** The two arrays `prepare_data` returns: padded windows and labels. */
  datatype Samples = Samples(x: seq<Matrix>, y: Row)

  /** `prepare_data` on a table already read from the CSV. A table without
      a `winner` column is refused before anything else happens; the scaler
      then refuses a table without rows or without feature columns, and
      `max` one with a single row. Otherwise there are `N - 1` samples for
      `N` rows, and sample `i` is `N - 2 - i` zero rows followed by scaled
      feature rows `0..i`, unchanged and in order: every sample has
      `N - 1` rows as wide as the feature table, nothing is cut, and
      feature row `N - 1` is in no sample. Every cell of every sample,
      padding included, lies in [0, 1]. */
  function PrepareData(f: Frame): (r: Result<Samples>)
    requires WellFormed(f)
    ensures r == Err(MissingLabelColumn) <==> LabelColumn !in f.header
    ensures r == Err(NoSamples) <==> LabelColumn in f.header && |f.rows| == 0
    ensures r == Err(NoFeatures) <==> LabelColumn in f.header && |f.rows| > 0 && |f.header| == 1
    ensures r == Err(NoWindows) <==> LabelColumn in f.header && |f.rows| == 1 && |f.header| > 1
    ensures r.Ok? <==> LabelColumn in f.header && |f.rows| >= 2 && |f.header| >= 2
    ensures r.Ok? ==> |r.value.x| == |f.rows| - 1 && |r.value.y| == |f.rows| - 1
    ensures r.Ok? ==> forall i :: 0 <= i < |r.value.x| ==>
      r.value.x[i] == ZeroRows(|f.rows| - 2 - i, |f.header| - 1) + ScaledFeatures(f)[..i + 1]
    ensures r.Ok? ==> forall i :: 0 <= i < |r.value.x| ==> InUnitInterval(r.value.x[i])
  {
    if LabelColumn !in f.header then Err(MissingLabelColumn)
    else
      var target := SelectColumn(f, LabelColumn);
      var features := DropColumn(f, LabelColumn);
      match FitTransform(features.rows, |features.header|)
      case Err(e) => Err(e)
      case Ok(scaled) =>
        SamplesInUnitInterval(scaled, |features.header|, target);
        BuildSamples(scaled, |features.header|, target)
  }

  /** Lines 106 to 112 of `prepare_data`: the expanding windows of the
      scaled features, each padded in front with zero rows to the length
      of the longest, and the labels shifted one row forward. Fewer than
      two rows make no window, and `max` fails. */
  function BuildSamples(scaled: Matrix, width: nat, target: Row): (r: Result<Samples>)
    requires Rectangular(scaled, width) && |target| == |scaled|
    ensures r.Err? <==> |scaled| <= 1
    ensures r.Err? ==> r.error == NoWindows
    ensures r.Ok? ==> |r.value.x| == |scaled| - 1 && |r.value.y| == |scaled| - 1
    ensures r.Ok? ==> forall i :: 0 <= i < |r.value.x| ==>
      |r.value.x[i]| == |scaled| - 1 && Rectangular(r.value.x[i], width) &&
      r.value.x[i] == ZeroRows(|scaled| - 2 - i, width) + scaled[..i + 1] &&
      r.value.y[i] == target[i + 1]
  {
    var windows := ExpandingWindows(scaled);
    var y := ShiftLabels(target);
    MaxWindowLength(scaled);
    match MaxLength(windows)
    case None => Err(NoWindows)
    case Some(maxLength) =>
      PaddedWindows(scaled, width, maxLength);
      Ok(Samples(PadAll(windows, maxLength, width), y))
  }

  /** The scaled feature table of a frame that preparation accepts. */
  function ScaledFeatures(f: Frame): (s: Matrix)
    requires WellFormed(f) && LabelColumn in f.header && |f.rows| > 0 && |f.header| > 1
    ensures |s| == |f.rows| && Rectangular(s, |f.header| - 1) && InUnitInterval(s)
  {
    var features := DropColumn(f, LabelColumn);
    FitTransform(features.rows, |features.header|).value
  }

  /** The newest row of sample `i` is scaled feature row `i`, and its label
      is the `winner` cell of the next row, `i + 1`. */
  lemma SampleAlignment(f: Frame, i: nat)
    requires WellFormed(f) && LabelColumn in f.header && |f.header| >= 2 && i + 1 < |f.rows|
    ensures PrepareData(f).Ok?
    ensures PrepareData(f).value.x[i][|f.rows| - 2] == ScaledFeatures(f)[i]
    ensures forall k :: 0 <= k < |f.header| && f.header[k] == LabelColumn ==>
      PrepareData(f).value.y[i] == f.rows[i + 1][k]
  {
  }

  /** Samples built from a table with cells in [0, 1] have all their
      cells in [0, 1]: the padding is zero and the rest are table cells. */
  lemma SamplesInUnitInterval(scaled: Matrix, width: nat, target: Row)
    requires Rectangular(scaled, width) && |target| == |scaled| && InUnitInterval(scaled)
    ensures BuildSamples(scaled, width, target).Ok? ==>
      forall i :: 0 <= i < |BuildSamples(scaled, width, target).value.x| ==>
        InUnitInterval(BuildSamples(scaled, width, target).value.x[i])
  {
    var r := BuildSamples(scaled, width, target);
    if r.Ok? {
      forall i | 0 <= i < |r.value.x| ensures InUnitInterval(r.value.x[i]) {
        PaddedInUnitInterval(ZeroRows(|scaled| - 2 - i, width), scaled, i + 1);
      }
    }
  }

  /** Zero rows in front of a prefix of a matrix with cells in [0, 1]
      keep every cell in [0, 1]. */
  lemma PaddedInUnitInterval(z: Matrix, s: Matrix, n: nat)
    requires forall k :: 0 <= k < |z| ==> IsZeroRow(z[k])
    requires InUnitInterval(s) && n <= |s|
    ensures InUnitInterval(z + s[..n])
  {
    var p := z + s[..n];
    forall k, j | 0 <= k < |p| && 0 <= j < |p[k]| ensures 0.0 <= p[k][j] <= 1.0 {
      if k < |z| {
        assert p[k] == z[k] && IsZeroRow(z[k]);
      } else {
        assert p[k] == s[k - |z|];
      }
    }
  }

  /** The samples never see the labels: two frames that differ only in
      their `winner` cells give the same windows. */
  lemma InputsIgnoreLabels(f: Frame, g: Frame)
    requires WellFormed(f) && WellFormed(g) && f.header == g.header && |f.rows| == |g.rows|
    requires forall i, k :: 0 <= i < |f.rows| && 0 <= k < |f.header| && f.header[k] != LabelColumn ==>
      f.rows[i][k] == g.rows[i][k]
    ensures PrepareData(f).Ok? <==> PrepareData(g).Ok?
    ensures PrepareData(f).Ok? ==> PrepareData(f).value.x == PrepareData(g).value.x
  {
    if LabelColumn in f.header {
      var df, dg := DropColumn(f, LabelColumn), DropColumn(g, LabelColumn);
      assert df.header == dg.header;
      forall i | 0 <= i < |df.rows| ensures df.rows[i] == dg.rows[i] {
        forall j | 0 <= j < |df.header| ensures df.rows[i][j] == dg.rows[i][j] {
          assert df.header[j] in f.header;
          var k :| 0 <= k < |f.header| && f.header[k] == df.header[j];
        }
      }
      assert df.rows == dg.rows;
    }
  }
}
