/**
 The data frame that `prepare_data` reads from the race CSV: a header of
 column names over a rectangular body of numeric cells, and the two
 column operations it applies to it, selecting the `winner` label column
 and dropping it to leave the feature columns.
 */
module Frames {

  type Row = seq<real>
  type Matrix = seq<Row>

  /** The name of the binary outcome column. */
  const LabelColumn: string := "winner"

  datatype Option<T> = None | Some(value: T)

  /** The ways data preparation ends in an exception. */
  datatype PrepError =
    | MissingLabelColumn  // the ValueError raised when no column is named `winner`
    | NoSamples           // the scaler refuses a frame without rows
    | NoFeatures          // the scaler refuses a frame whose only column is `winner`
    | NoWindows           // `max` over an empty collection of windows

  datatype Result<T> = Ok(value: T) | Err(error: PrepError)

  datatype Frame = Frame(header: seq<string>, rows: Matrix)

  /** Every row of `m` has exactly `width` cells. */
  predicate Rectangular(m: Matrix, width: nat) {
    forall i :: 0 <= i < |m| ==> |m[i]| == width
  }

  predicate Distinct<T(==)>(s: seq<T>) {
    forall i, j :: 0 <= i < j < |s| ==> s[i] != s[j]
  }

  /** A frame as the CSV reader builds it: one cell per column in every
      row, and no column name twice (duplicates are renamed on reading). */
  predicate WellFormed(f: Frame) {
    Distinct(f.header) && Rectangular(f.rows, |f.header|)
  }

  /** The position of the first `x` in `s`, if any. */
  function IndexOf<T(==)>(s: seq<T>, x: T): (r: Option<nat>)
    ensures r.None? <==> x !in s
    ensures r.Some? ==> r.value < |s| && s[r.value] == x && x !in s[..r.value]
  {
    if |s| == 0 then None
    else if s[0] == x then Some(0)
    else
      match IndexOf(s[1..], x)
      case None => None
      case Some(k) =>
        assert s[..k + 1] == [s[0]] + s[1..][..k];
        Some(k + 1)
  }

  /** `s` with every occurrence of `x` taken out, the rest in order. */
  function Without<T(==)>(s: seq<T>, x: T): (r: seq<T>)
    ensures forall i :: 0 <= i < |r| ==> r[i] in s && r[i] != x
    ensures forall i :: 0 <= i < |s| && s[i] != x ==> s[i] in r
    ensures |r| <= |s|
  {
    if |s| == 0 then []
    else if s[0] == x then Without(s[1..], x)
    else [s[0]] + Without(s[1..], x)
  }

  /** `s` with the element at position `k` taken out. */
  function RemoveAt<T>(s: seq<T>, k: nat): (r: seq<T>)
    requires k < |s|
    ensures |r| == |s| - 1
    ensures forall j :: 0 <= j < k ==> r[j] == s[j]
    ensures forall j :: k <= j < |r| ==> r[j] == s[j + 1]
  {
    s[..k] + s[k + 1..]
  }

  /** Dropping a name from a list without repetitions is removing it at its
      one position: the other names keep their order. */
  lemma {:induction false} RemoveAtIsWithout<T>(s: seq<T>, x: T, k: nat)
    requires Distinct(s) && k < |s| && s[k] == x
    ensures RemoveAt(s, k) == Without(s, x)
  {
    if k == 0 {
      assert x !in s[1..];
      WithoutAbsent(s[1..], x);
    } else {
      assert s[0] != x;
      assert Distinct(s[1..]);
      RemoveAtIsWithout(s[1..], x, k - 1);
      assert RemoveAt(s, k) == [s[0]] + RemoveAt(s[1..], k - 1);
    }
  }

  /** Dropping a name that is not there changes nothing. */
  lemma {:induction false} WithoutAbsent<T>(s: seq<T>, x: T)
    requires x !in s
    ensures Without(s, x) == s
  {
    if |s| > 0 {
      assert x !in s[1..];
      WithoutAbsent(s[1..], x);
    }
  }

  /** `df[name]`: the cells of the column headed `name`, one per row. */
  function SelectColumn(f: Frame, name: string): (col: Row)
    requires WellFormed(f) && name in f.header
    ensures |col| == |f.rows|
    ensures forall i, k ::
      0 <= i < |f.rows| && 0 <= k < |f.header| && f.header[k] == name ==> col[i] == f.rows[i][k]
  {
    var k := IndexOf(f.header, name).value;
    seq(|f.rows|, i requires 0 <= i < |f.rows| => f.rows[i][k])
  }

  /** `df.drop(name, axis=1)`: the frame without the column headed `name`.
      Every row is kept; every other column keeps its name, its cells and
      its place in the order. */
  function DropColumn(f: Frame, name: string): (g: Frame)
    requires WellFormed(f) && name in f.header
    ensures WellFormed(g)
    ensures g.header == Without(f.header, name) && |g.header| == |f.header| - 1
    ensures |g.rows| == |f.rows|
    ensures forall i, j, k ::
      0 <= i < |g.rows| && 0 <= j < |g.header| && 0 <= k < |f.header| && g.header[j] == f.header[k] ==>
        g.rows[i][j] == f.rows[i][k]
  {
    var k := IndexOf(f.header, name).value;
    var g := Frame(RemoveAt(f.header, k),
                   seq(|f.rows|, i requires 0 <= i < |f.rows| => RemoveAt(f.rows[i], k)));
    RemoveAtIsWithout(f.header, name, k);
    DropAtKeepsColumns(f, k, g);
    g
  }

  /** Removing position `k` from the header and from every row keeps the
      header free of repeats and every remaining cell under its own name. */
  lemma DropAtKeepsColumns(f: Frame, k: nat, g: Frame)
    requires WellFormed(f) && k < |f.header|
    requires g.header == RemoveAt(f.header, k) && |g.rows| == |f.rows|
    requires forall i :: 0 <= i < |f.rows| ==> g.rows[i] == RemoveAt(f.rows[i], k)
    ensures WellFormed(g)
    ensures forall i, j, k' ::
      0 <= i < |g.rows| && 0 <= j < |g.header| && 0 <= k' < |f.header| && g.header[j] == f.header[k'] ==>
        g.rows[i][j] == f.rows[i][k']
  {
    forall a, b | 0 <= a < b < |g.header| ensures g.header[a] != g.header[b] {
      var a' := if a < k then a else a + 1;
      var b' := if b < k then b else b + 1;
      assert g.header[a] == f.header[a'] && g.header[b] == f.header[b'];
    }
    forall i, j, k' | 0 <= i < |g.rows| && 0 <= j < |g.header| && 0 <= k' < |f.header| && g.header[j] == f.header[k']
      ensures g.rows[i][j] == f.rows[i][k']
    {
      var j' := if j < k then j else j + 1;
      assert g.header[j] == f.header[j'];
      assert j' == k';
    }
  }
}
