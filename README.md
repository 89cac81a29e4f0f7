# Race data preparation, modelled in Dafny

This project models `prepare_data` from the horse-race predictor. That function turns a table of race rows into training samples for a recurrent network. The table has numeric feature columns and a binary `winner` column. The function:

- refuses a table without a `winner` column;
- splits off the `winner` column as the labels and keeps the other columns as features;
- min-max scales every feature column onto [0, 1];
- builds one expanding window per row except the last, where window `i` holds feature rows `0..i`;
- pads every window in front with zero rows, up to the length of the longest window;
- pairs window `i` with the `winner` value of row `i + 1`.

The model is pure: datatypes, functions and lemmas, like the source. There are four modules:

- `Frames` (frames.dfy): the table as it arrives from the CSV reader, with `df['winner']` and `df.drop('winner', axis=1)`.
- `Scaling` (scaling.dfy): `MinMaxScaler().fit_transform` in exact real arithmetic, with its inverse.
- `Windows` (windows.dfy): expanding windows, `max` over window lengths, `np.pad` on the left, and `target[1:]`.
- `Preparation` (preparation.dfy): `prepare_data` end to end, and the layout and alignment of the arrays it returns.

Errors are values of `Result`, not preconditions. Each error the source raises is its own `PrepError`:

- `MissingLabelColumn`: the explicit `ValueError`.
- `NoSamples` and `NoFeatures`: the scaler's input validation, which refuses an input without rows and then one without columns.
- `NoWindows`: `max` over an empty collection, for a table of one row.

## Model

| member | source | states |
|---|---|---|
| Frames.IndexOf | main.py:100-101 | the column lookup finds a name exactly when it is in the header, at a position holding that name with no earlier occurrence |
| Frames.Without | main.py:101 | dropping a column name by label keeps exactly the other names |
| Frames.RemoveAtIsWithout | main.py:101 | in a header without repeats, dropping `winner` by name is the same as removing its one position, so the other columns keep their order |
| Frames.SelectColumn | main.py:100 | `df['winner']` has one cell per row, and each is the cell under the `winner` header |
| Frames.DropColumn | main.py:101 | the feature table keeps every row, its header is the input header without `winner` in the original order, it is still well formed, and every remaining cell sits under the same name as in the input |
| Scaling.ColumnMin | main.py:103-104 | the fitted minimum of a column is at most every cell of the column and equals one of them |
| Scaling.ColumnMax | main.py:103-104 | the fitted maximum of a column is at least every cell of the column and equals one of them |
| Scaling.ScaleCellBounds | main.py:103-104 | a cell within its column's bounds scales into [0, 1]; the minimum scales to 0, and the maximum of a non-constant column to 1 |
| Scaling.ScaleCellOrder | main.py:103-104 | scaling within a column keeps the order of cells, in both directions |
| Scaling.UnscaleScaleCell | main.py:103-104 | unscaling with the same bounds gives back any scaled cell |
| Scaling.Scaled | main.py:103-104 | fitting on a table with rows and columns gives a table of the same shape with no cell outside [0, 1] |
| Scaling.FitTransform | main.py:103-104 | the scaler refuses a table without rows, then one without columns, and otherwise returns a table of the same shape with every cell in [0, 1] |
| Scaling.ScalingKeepsOrder | main.py:103-104 | within each feature column, one row's value is at most another's exactly when the same holds after scaling |
| Scaling.ScalingExtremes | main.py:103-104 | a column's minimum cell scales to 0, its maximum cell scales to 1 when the column is not constant, and a constant column becomes all zeros |
| Scaling.InverseTransformRoundTrip | main.py:103-104 | the inverse transform with the fitted bounds recovers every original feature cell, so scaling loses nothing |
| Windows.ExpandingWindows | main.py:106 | for N rows there are N - 1 windows (none for an empty table), and window `i` is the prefix of the rows of length `i + 1` |
| Windows.WindowsExpand | main.py:106 | the newest row of window `i` is row `i`, and window `i + 1` is window `i` extended by row `i + 1` |
| Windows.MaxLength | main.py:109 | `max` over window lengths fails exactly on an empty collection, and otherwise bounds every length and equals one of them |
| Windows.MaxWindowLength | main.py:106-109 | the padding length is N - 1, the length of the last window, and `max` fails when N <= 1 |
| Windows.ZeroRows | main.py:110 | the padding block has the requested count of rows, each of the feature width and all zeros |
| Windows.PadLeft | main.py:110 | a padded window has the target length and unchanged width, zero rows in front, and the window itself unchanged and uncut after them |
| Windows.PadAll | main.py:110 | every window is padded to the common length with its width unchanged, zeros only in front, and its own rows at the tail |
| Windows.PaddedWindows | main.py:106-110 | padded window `i` is N - 2 - i zero rows followed by rows `0..i` |
| Windows.ShiftLabels | main.py:107 | `target[1:]` has one label fewer than the column, and label `i` is the outcome of row `i + 1` |
| Preparation.PrepareData | main.py:91-112 | a table without `winner` fails with the label error whatever else it holds; otherwise it fails with no rows, with no feature column, or with one row; otherwise there are N - 1 samples and N - 1 labels, and sample `i` is N - 2 - i zero rows followed by scaled feature rows `0..i` in order, so row N - 1 is in no sample; every cell of every sample lies in [0, 1], the padding included |
| Preparation.BuildSamples | main.py:106-112 | from a scaled table and its label column: no samples below two rows; otherwise N - 1 samples of N - 1 rows of the feature width, each zero rows followed by a prefix of the table, and label `i` is the outcome of row `i + 1` |
| Preparation.ScaledFeatures | main.py:100-104 | the scaled feature table has one row per input row, one column fewer than the input, and every cell in [0, 1] |
| Preparation.SampleAlignment | main.py:106-107 | the last row of sample `i` is scaled feature row `i`, and its label is the `winner` cell of row `i + 1` |
| Preparation.SamplesInUnitInterval | main.py:103-110 | samples built from a scaled table with every cell in [0, 1] have every cell in [0, 1], the padding included |
| Preparation.InputsIgnoreLabels | main.py:100-110 | two tables that differ only in their `winner` cells are accepted alike and yield identical sample windows, so the labels never leak into the inputs |

## Left out

- Browser automation and the PDF download (main.py:25-89): I/O against a third-party site, including a blocking operator prompt, a network request and a file write.
- Reading the CSV (main.py:95): file parsing by a library. The model starts from the parsed table, which is rectangular and has no repeated column names, because the reader renames duplicates. The column operations and `PrepareData` require exactly that (`Frames.WellFormed`).
- Scaling.FitTransform: uses exact real arithmetic, not IEEE-754 doubles. In floating point a scaled cell can land a rounding error outside [0, 1], and the round trip through the inverse is only approximate.
- Scaling.FitTransform: missing values and non-numeric columns are not modelled, because every cell is a `real`. The scaler's own source is not part of this model; its zero-range rule (divide by one) and its input checks are stated from its documented behaviour. Only a range of exactly zero counts as constant here. Recent versions of the scaler also divide by one when the range is below ten times the double-precision machine epsilon, so a near-constant column such as [0.0, 1e-16] is left unscaled by the scaler, while the model sends its maximum to 1.
- Windows.ExpandingWindows: the element of the model is a matrix as a sequence of rows, not a NumPy array. Array conversion, dtypes and memory layout are not modelled.
- Labels are the raw `winner` cells. The source does not check that they are binary, so the model does not either.
- `build_lstm_model` (main.py:114-127): a wrapper over a deep-learning library.
- `main` (main.py:129-160): orchestration with fixed paths and credentials, a random train/test split, training, evaluation and model saving.
- Logging throughout.
