/**
 The sequence construction of `prepare_data`: one expanding window per row
 except the last, the length of the longest window, left zero-padding of
 every window to that length, and the labels shifted one row forward.
 */
module Windows {
  import opened Frames

  /** `[m[:i+1] for i in range(len(m) - 1)]`: window `i` holds rows `0..i`
      of `m`, oldest first. The last row starts no window. */
  function ExpandingWindows(m: Matrix): (ws: seq<Matrix>)
    ensures |ws| == if |m| == 0 then 0 else |m| - 1
    ensures forall i :: 0 <= i < |ws| ==> |ws[i]| == i + 1 && ws[i] <= m
  {
    if |m| == 0 then []
    else seq(|m| - 1, i requires 0 <= i < |m| - 1 => m[..i + 1])
  }

  /** Each window is the one before it extended by the next row, and the
      newest row of window `i` is row `i`. */
  lemma WindowsExpand(m: Matrix, i: nat)
    requires i < |ExpandingWindows(m)|
    ensures ExpandingWindows(m)[i][i] == m[i]
    ensures i + 1 < |ExpandingWindows(m)| ==> ExpandingWindows(m)[i + 1] == ExpandingWindows(m)[i] + [m[i + 1]]
  {
  }

  /** `max(len(w) for w in ws)`: `None` stands for the ValueError that
      `max` raises on an empty collection. */
  function MaxLength(ws: seq<Matrix>): (r: Option<nat>)
    ensures r.None? <==> |ws| == 0
    ensures r.Some? ==> forall i :: 0 <= i < |ws| ==> |ws[i]| <= r.value
    ensures r.Some? ==> exists i :: 0 <= i < |ws| && |ws[i]| == r.value
  {
    if |ws| == 0 then None
    else
      match MaxLength(ws[1..])
      case None => Some(|ws[0]|)
      case Some(n) =>
        assert forall i :: 1 <= i < |ws| ==> ws[1..][i - 1] == ws[i];
        Some(if |ws[0]| >= n then |ws[0]| else n)
  }

  /** The longest expanding window is the last one, of `|m| - 1` rows; with
      fewer than two rows there is no window and `max` fails. */
  lemma MaxWindowLength(m: Matrix)
    ensures MaxLength(ExpandingWindows(m)) == if |m| <= 1 then None else Some(|m| - 1)
  {
    var ws := ExpandingWindows(m);
    if |m| > 1 {
      var r := MaxLength(ws).value;
      assert |ws[|m| - 2]| == |m| - 1;
      var k :| 0 <= k < |ws| && |ws[k]| == r;
    }
  }

  /** A row of zeros. */
  predicate IsZeroRow(row: Row) {
    forall j :: 0 <= j < |row| ==> row[j] == 0.0
  }

  /** `n` rows of `width` zeros each. */
  function ZeroRows(n: nat, width: nat): (z: Matrix)
    ensures |z| == n && Rectangular(z, width)
    ensures forall i :: 0 <= i < n ==> IsZeroRow(z[i])
  {
    seq(n, _ => seq(width, _ => 0.0))
  }

  /** `np.pad(w, ((len - len(w), 0), (0, 0)), mode='constant')`: `w` grown
      to `len` rows by zero rows in front. Its width is unchanged, its own
      rows follow the padding unchanged and in order, and nothing is cut. */
  function PadLeft(w: Matrix, len: nat, width: nat): (p: Matrix)
    requires Rectangular(w, width) && |w| <= len
    ensures |p| == len && Rectangular(p, width)
    ensures forall i :: 0 <= i < len - |w| ==> IsZeroRow(p[i])
    ensures p[len - |w|..] == w
  {
    ZeroRows(len - |w|, width) + w
  }

  /** Every window of `ws` padded in front to `len` rows. */
  function PadAll(ws: seq<Matrix>, len: nat, width: nat): (ps: seq<Matrix>)
    requires forall i :: 0 <= i < |ws| ==> Rectangular(ws[i], width) && |ws[i]| <= len
    ensures |ps| == |ws|
    ensures forall i :: 0 <= i < |ps| ==>
      |ps[i]| == len && Rectangular(ps[i], width) &&
      (forall k :: 0 <= k < len - |ws[i]| ==> IsZeroRow(ps[i][k])) &&
      ps[i][len - |ws[i]|..] == ws[i]
  {
    seq(|ws|, i requires 0 <= i < |ws| => PadLeft(ws[i], len, width))
  }

  /** With the windows of `m` padded to the longest, window `i` is
      `|m| - 2 - i` zero rows followed by rows `0..i` of `m`. */
  lemma PaddedWindows(m: Matrix, width: nat, len: nat)
    requires Rectangular(m, width) && |m| >= 2 && len == |m| - 1
    ensures forall i :: 0 <= i < |ExpandingWindows(m)| ==>
      Rectangular(ExpandingWindows(m)[i], width) && |ExpandingWindows(m)[i]| <= |m| - 1
    ensures forall i :: 0 <= i < len ==>
      PadAll(ExpandingWindows(m), len, width)[i] == ZeroRows(len - 1 - i, width) + m[..i + 1]
  {
  }

  /** `target[1:]`: the label of window `i` is the outcome of row `i + 1`. */
  function ShiftLabels(target: Row): (y: Row)
    ensures |y| == if |target| == 0 then 0 else |target| - 1
    ensures forall i :: 0 <= i < |y| ==> y[i] == target[i + 1]
  {
    if |target| == 0 then [] else target[1..]
  }
}
