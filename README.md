# Outlier detection and treatment, modelled in Dafny

This project models the two table operations at the centre of the back end's outlier
workflow:

- `detect_outliers` (app/outliers_detector.py) drops the `Class` column. For every other column it then records the rows flagged by four rules:
  - z-score: more than three population standard deviations from the mean;
  - robust z-score: `0.6745 * |x - median| / MAD > 3.5`;
  - IQR: outside `Q1 - 1.5 IQR, Q3 + 1.5 IQR`;
  - winsorization: outside the 1st to 99th percentile band.

  The result is a report `strategy -> column -> flagged rows`.
- `transform_outliers` (app/outliers_treater.py) copies the table. It then loops over the active strategies in the fixed order z-score, robust z-score, IQR, winsorization. Inside that, it loops over every column except `Class` that the strategy's sub-report has as a key. For each such pair it narrows the flagged labels to the *current* row index, then applies the treatment:
  - `log`, `sqrt` and `cbrt` rewrite the whole column, with non-positive values mapped to 0;
  - `scaling` rewrites the whole column with min-max scaling;
  - `constant` overwrites the flagged cells;
  - `remove` drops the flagged rows, so later pairs see the smaller table.

The model is organised in four modules:

- `Tables` (tables.dfy) is the part of a pandas DataFrame both functions use: a row index of distinct labels, which need not be 0..n-1, an ordered list of columns, and per column a map from label to value. `Table` is the value. `Frame` is the mutable working copy, with the pandas operations the treater performs on it (`copy`, column assignment, `.loc` cell assignment, `drop`).
- `Statistics` (statistics.dfy) holds the exact-real helpers:
  - sum, mean and population variance;
  - sorting, proved to give a sorted permutation;
  - pandas' linear-interpolation quantile;
  - the median and the MAD.
- `OutliersDetector` (outliers_detector.dfy) holds the four rules, the report and the method `DetectOutliers`, which fills the report map in its column loop.
- `OutliersTreater` (outliers_treater.dfy) holds the treatment as a pure specification `Transform`, and the imperative method `TransformOutliers` with its loops over a `Frame`. The method is proved equal to `Transform`, and the properties are proved about `Transform`.

Every rule is a comparison over `real`, with the square roots multiplied out. Lemmas show that each squared-out form is equivalent to the comparison the source writes, including the degenerate cases:
- z-score: `ZScoreRuleAsComputed` covers the comparison and the constant column, whose z-scores are NaN and flag nothing.
- robust z-score: `RobustRuleAsComputed` covers the comparison and a zero MAD, where every value other than the median divides to infinity and is flagged.

The two kinds of row identifier differ:
- The z-score and robust z-score lists come from `np.where`, so they are **positions** 0..n-1.
- The IQR and winsorization lists come from `df[mask].index`, so they are **index labels**.

The treater intersects every list with the index labels (app/outliers_treater.py:32). `PositionsAreLabelsIff` proves that positions and labels pick the same rows for every mask exactly when the index is 0..n-1. The model keeps both kinds as the code produces them.

Some behaviours of the code that the model keeps as they are:
- An unrecognised `treatment_method`, or `None`, treats nothing and returns the unchanged copy. The code prints and does not raise.
- `cbrt` keeps the `x > 0` guard, so negative values become 0, like non-positive values under `log` and `sqrt`.
- A zero MAD is not caught. The division's infinities and NaNs decide which values are flagged, as stated above.
- A strategy that is active but missing from the report raises `KeyError` when it is looked up for the first attribute. So this fails only when there is at least one attribute.
- `MinMaxScaler` needs at least one sample, so `scaling` raises `ValueError` at the first keyed attribute of a table with no rows (app/outliers_treater.py:44). No treatment is applied before that point, so the index is still the input's. The two exceptions come in loop order: the first active strategy whose inner loop fails decides which one is raised.

## Model

| member | source | states |
|---|---|---|
| Tables.Keep | app/outliers_treater.py:50 | the kept elements are exactly those of the input outside the dropped set, and distinctness is preserved; `KeepOrder` gives the order |
| Tables.KeepOrder | app/outliers_treater.py:50 | the kept elements occur in the input in the same order |
| Tables.KeepKeep | app/outliers_treater.py:50 | dropping `a` then `b` keeps the same labels, in the same order, as dropping `a + b` at once |
| Tables.Intersect | app/outliers_treater.py:32 | `index.intersection(flagged)` holds exactly the index labels that are flagged; `IntersectOrder` gives the order |
| Tables.IntersectOrder | app/outliers_treater.py:32 | the intersection lists its labels in index order |
| Tables.Attributes | app/outliers_treater.py:25 | `columns.drop('Class')` holds exactly the columns other than `Class`, in their order, duplicate-free |
| Tables.ColumnValues | app/outliers_treater.py:35 | a column read as a Series has one value per row of the index |
| Tables.WithColumn | app/outliers_treater.py:35-44 | assigning a column keeps the index and columns, makes the column read back as the assigned values, and leaves every other column as it was |
| Tables.WithCells | app/outliers_treater.py:47 | `.loc[labels, c] = v` keeps the index and columns; exactly the named cells of `c` take `v` and every other cell keeps its value |
| Tables.DropRows | app/outliers_treater.py:50 | `drop(labels)` keeps the columns, leaves the index without those labels in their order, and every surviving cell keeps its value |
| Tables.DropRowsTwice | app/outliers_treater.py:50 | two successive drops equal one drop of the union |
| Tables.DropRowsNone | app/outliers_treater.py:50 | dropping no label gives the table back |
| Tables.DropRowsOutside | app/outliers_treater.py:32-50 | labels that are not in the index change nothing when dropped |
| Tables.Frame.Copy | app/outliers_treater.py:15 | `df.copy()` is a fresh frame with the same contents |
| Tables.Frame.AssignColumn | app/outliers_treater.py:35-44 | column assignment changes the frame to `WithColumn` of its old value |
| Tables.Frame.AssignCells | app/outliers_treater.py:47 | `.loc` assignment changes the frame to `WithCells` of its old value |
| Tables.Frame.Drop | app/outliers_treater.py:50 | `drop` returns a fresh frame holding `DropRows` of the old value |
| Statistics.Mean | app/outliers_detector.py:29 | computes the mean inside `zscore` (0 for an empty column); its properties are in `MeanDeviationsSumToZero`, `ConstantMoments` and `Samuelson` |
| Statistics.Variance | app/outliers_detector.py:29 | computes the population variance (`ddof = 0`) inside `zscore`, never negative; its properties are in `ConstantMoments` and `Samuelson` |
| Statistics.Sort | app/outliers_detector.py:41-42 | computes the sorted copy the quantile reads; `SortSpec` proves it sorted and a permutation |
| Statistics.Quantile | app/outliers_detector.py:41-42 | computes pandas' linear-interpolation `Series.quantile(q)`, also used for the 0.01 and 0.99 quantiles at line 48; its properties are in `QuantileWithinRange`, `QuantileMonotone` and `QuantileConstant` |
| Statistics.Median | app/outliers_detector.py:34 | computes `Series.median()`, the middle value or the mean of the two middle values; `MedianIsHalfQuantile` and `MedianWithinRange` state its properties |
| Statistics.Mad | app/outliers_detector.py:35 | computes `np.median(abs(x - median))`; `MadNonNegative` and `ConstantMedianMad` state its properties |
| Statistics.MeanDeviationsSumToZero | app/outliers_detector.py:29 | the deviations from the mean sum to zero |
| Statistics.ConstantMoments | app/outliers_detector.py:29 | a constant column has that constant as mean and zero variance |
| Statistics.SquareOfSum | app/outliers_detector.py:29 | Cauchy-Schwarz: `n * sum(y^2) >= (sum y)^2` |
| Statistics.Samuelson | app/outliers_detector.py:29-30 | no value is more than `sqrt(n - 1)` population standard deviations from the mean |
| Statistics.SortSpec | app/outliers_detector.py:41-42 | the sort used by the quantile yields a sorted permutation of the column |
| Statistics.QuantileWithinRange | app/outliers_detector.py:41-42 | every linear-interpolation quantile lies between the minimum and the maximum |
| Statistics.QuantileMonotone | app/outliers_detector.py:41-43 | a larger q never gives a smaller quantile, so `Q3 - Q1 >= 0` |
| Statistics.QuantileConstant | app/outliers_detector.py:48 | every quantile of a constant column is that constant |
| Statistics.MedianIsHalfQuantile | app/outliers_detector.py:34 | `Series.median()` equals the 0.5 linear-interpolation quantile |
| Statistics.MedianWithinRange | app/outliers_detector.py:34 | the median lies between the minimum and the maximum |
| Statistics.MadNonNegative | app/outliers_detector.py:35 | the MAD is never negative |
| Statistics.ConstantMedianMad | app/outliers_detector.py:34-35 | a constant column has that constant as median and a MAD of zero |
| OutliersDetector.NameInjective | app/outliers_detector.py:24 | distinct strategies have distinct report keys |
| OutliersDetector.Where | app/outliers_detector.py:30 | computes `np.where(mask)[0]`, also used at line 37; `WhereSpec` states it |
| OutliersDetector.Select | app/outliers_detector.py:44 | computes `df[mask].index`, also used at line 49; `SelectFacts` and `SelectIsIndexAtWhere` state it |
| OutliersDetector.ZScoreOutlier | app/outliers_detector.py:29-30 | the z-score test squared out, `(x - mean)^2 > 9 * variance`; `ZScoreRuleAsComputed` ties it to `abs(zscore) > 3` |
| OutliersDetector.RobustZScoreOutlier | app/outliers_detector.py:34-37 | the robust test multiplied out, `0.6745 * abs(x - median) > 3.5 * MAD`; `RobustRuleAsComputed` ties it to the division the code performs |
| OutliersDetector.IqrOutlier | app/outliers_detector.py:41-44 | the test against the fences `Q1 - 1.5 IQR` and `Q3 + 1.5 IQR`; `IqrQuartileRangeNotFlagged` states a consequence |
| OutliersDetector.WinsorizationOutlier | app/outliers_detector.py:48-49 | the test against the 0.01 and 0.99 quantiles |
| OutliersDetector.ZScoreOutliers | app/outliers_detector.py:29-31 | computes the z-score list of positions; `ZScoreOutliersSpec` states it |
| OutliersDetector.RobustZScoreOutliers | app/outliers_detector.py:34-38 | computes the robust z-score list of positions; `RobustZScoreOutliersSpec` states it |
| OutliersDetector.IqrOutliers | app/outliers_detector.py:41-45 | computes the IQR list of labels; `IqrOutliersSpec` states it |
| OutliersDetector.WinsorizationOutliers | app/outliers_detector.py:48-50 | computes the winsorization list of labels; `WinsorizationOutliersSpec` states it |
| OutliersDetector.WhereSpec | app/outliers_detector.py:30 | `np.where(mask)[0]` lists exactly the positions where the mask holds, strictly ascending and within range |
| OutliersDetector.SelectIsIndexAtWhere | app/outliers_detector.py:44-45 | `df[mask].index` lists, in order, the labels at the positions `np.where` reports |
| OutliersDetector.SelectFacts | app/outliers_detector.py:49-50 | a label is selected exactly when a row carrying it satisfies the mask; distinct labels give a duplicate-free list |
| OutliersDetector.PositionsAreLabelsIff | app/outliers_detector.py:29-50 | positions and labels pick the same rows for every mask exactly when the index is 0..n-1 |
| OutliersDetector.ZScoreOutliersSpec | app/outliers_detector.py:29-31 | position p is listed iff `(x_p - mean)^2 > 9 * variance`; the list is strictly ascending and within range |
| OutliersDetector.RobustZScoreOutliersSpec | app/outliers_detector.py:34-38 | position p is listed iff `0.6745 * abs(x_p - median) > 3.5 * MAD`; strictly ascending and within range |
| OutliersDetector.IqrOutliersSpec | app/outliers_detector.py:41-45 | label l is listed iff a row carrying it lies outside `Q1 - 1.5 IQR, Q3 + 1.5 IQR`; duplicate-free for distinct labels |
| OutliersDetector.WinsorizationOutliersSpec | app/outliers_detector.py:48-50 | label l is listed iff a row carrying it lies below `q(0.01)` or above `q(0.99)`; duplicate-free for distinct labels |
| OutliersDetector.ReportOver | app/outliers_detector.py:24-25 | the report built by the loop always has exactly the four strategy keys |
| OutliersDetector.AddColumn | app/outliers_detector.py:31-50 | one loop pass sets column `c` in each of the four sub-dictionaries and changes nothing else |
| OutliersDetector.ReportOverKeys | app/outliers_detector.py:25-27 | each sub-dictionary has exactly the columns the loop visited |
| OutliersDetector.ReportOverEntry | app/outliers_detector.py:27-50 | each entry is its strategy's list for that column |
| OutliersDetector.Detect | app/outliers_detector.py:21-27 | a KeyError exactly when `Class` is missing; otherwise exactly the four keys, each with exactly the non-`Class` columns |
| OutliersDetector.DetectEntry | app/outliers_detector.py:27-50 | the entry for strategy k and column c is k's list computed on column c |
| OutliersDetector.DetectOutliers | app/outliers_detector.py:21-52 | the method with its column loop returns exactly `Detect` of the frame, reading the frame without modifying it |
| OutliersDetector.ConstantColumnFlagsNothing | app/outliers_detector.py:29-50 | a constant column flags nothing under any of the four rules |
| OutliersDetector.SmallColumnNoZScoreOutliers | app/outliers_detector.py:29-31 | a column of at most ten values flags nothing under the z-score rule |
| OutliersDetector.ZeroMadFlagsNonMedian | app/outliers_detector.py:35-37 | with a zero MAD the robust rule flags exactly the values that differ from the median |
| OutliersDetector.RobustRuleAsComputed | app/outliers_detector.py:36-37 | the multiplied-out robust rule agrees with `abs(0.6745 * (x - median) / MAD) > 3.5`, and with the NaN and infinity outcomes for a zero MAD |
| OutliersDetector.ZScoreRuleAsComputed | app/outliers_detector.py:29-30 | the squared z-score rule agrees with `abs((x - mean) / std) > 3` for the population standard deviation; a zero deviation flags nothing |
| OutliersDetector.IqrQuartileRangeNotFlagged | app/outliers_detector.py:41-44 | a value between Q1 and Q3 is never flagged by the IQR rule |
| OutliersTreater.StrategiesListsAll | app/outliers_treater.py:18-23 | the loop order lists every strategy |
| OutliersTreater.ParseTreatment | app/outliers_treater.py:34-53 | computes which branch of the `if`/`elif` chain `treatment_method` selects; `ParseTreatmentSpec` states it |
| OutliersTreater.Guarded | app/outliers_treater.py:35-41 | computes `f(x) if x > 0 else 0`; `IterateNonPositive` states its effect on non-positive values |
| OutliersTreater.Rewrite | app/outliers_treater.py:35-44 | computes the column a whole-column treatment writes back, of the same length; `TreatRewrite` and `RewriteTimesPointwise` state its effect |
| OutliersTreater.RewriteTimes | app/outliers_treater.py:35-44 | computes `k` whole-column treatments in a row, of the same length; `RewriteTimesPointwise` and `TransformRewrite` state its use |
| OutliersTreater.ParseTreatmentSpec | app/outliers_treater.py:34-53 | each treatment is selected by its keyword and by nothing else; `None` and every other string select no treatment |
| OutliersTreater.RewriteTimesPointwise | app/outliers_treater.py:34-41 | repeated `log`, `sqrt` or `cbrt` column maps act on each value by itself, as the iterated guarded function |
| OutliersTreater.IterateNonPositive | app/outliers_treater.py:35-39 | after at least one guarded map a non-positive value is 0 |
| OutliersTreater.Treat | app/outliers_treater.py:30-53 | one (strategy, attribute) pair keeps the table well formed with the same columns, and every treatment but `remove` keeps the index |
| OutliersTreater.TreatConstant | app/outliers_treater.py:31-47 | `constant` sets exactly the flagged cells of the attribute that are in the index; index and other cells stay |
| OutliersTreater.TreatRemove | app/outliers_treater.py:31-50 | `remove` equals dropping all flagged labels, absent ones included |
| OutliersTreater.TreatRewrite | app/outliers_treater.py:34-44 | a whole-column treatment rewrites the attribute's column and keeps the index and every other column |
| OutliersTreater.TreatKeeps | app/outliers_treater.py:30-53 | any treatment of one attribute keeps every other column's surviving cells and adds no row |
| OutliersTreater.OverAttributes | app/outliers_treater.py:29-53 | the inner loop over the attributes for one strategy's sub-report: the table stays well formed with the same columns, and only `remove` changes the index; `OverAttributesConstant`, `OverAttributesRemove`, `OverAttributesRewrite` and `OverAttributesKeeps` state what it does |
| OutliersTreater.Treated | app/outliers_treater.py:27-53 | the outer loop over the active strategies the report has: the table stays well formed with the same columns, and only `remove` changes the index; `TreatedConstant`, `TreatedRemove`, `TreatedRewrite` and `TreatedKeeps` state what it does |
| OutliersTreater.StrategyError | app/outliers_treater.py:29-44 | an active strategy's inner loop raises an exception exactly when there is an attribute and either the report lacks the strategy, or scaling is refused and the sub-report keys an attribute; a strategy the report lacks raises `KeyError` with its name, whether or not scaling is refused; a ValueError only when scaling is refused |
| OutliersTreater.FirstFailing | app/outliers_treater.py:27-44 | a reported strategy is one whose inner loop fails |
| OutliersTreater.FirstFailingSpec | app/outliers_treater.py:27-44 | the reported strategy is the first active one whose inner loop fails, and there is none exactly when no strategy fails |
| OutliersTreater.Transform | app/outliers_treater.py:15-55 | a successful treatment yields a well-formed table with the input's columns |
| OutliersTreater.TransformOutliers | app/outliers_treater.py:6-55 | the method with its nested loops leaves the input frame unmodified and returns exactly `Transform` of it: the same error, or a fresh frame with the same contents |
| OutliersTreater.TreatStrategies | app/outliers_treater.py:27-53 | the outer loop fails exactly when some active strategy's inner loop fails, with the first such strategy's exception, and otherwise yields the outer-loop specification |
| OutliersTreater.TreatAttributes | app/outliers_treater.py:29-53 | the inner loop raises exactly the strategy's exception (KeyError for a missing strategy, ValueError for scaling a table with no rows), and otherwise yields the inner-loop specification |
| OutliersTreater.TreatColumn | app/outliers_treater.py:31-53 | the loop body raises ValueError, changing nothing, exactly when it scales a table with no rows; otherwise it changes the frame, or gives a new one, to `Treat` of its old value |
| OutliersTreater.FirstFailingAt | app/outliers_treater.py:27-30 | a failing strategy with none failing before it is the one reported |
| OutliersTreater.TransformFailure | app/outliers_treater.py:25-44 | the call fails iff `Class` is missing, or there is an attribute and some active strategy is missing from the report or, under `scaling` of a table with no rows, keys an attribute; the error is that of `Class` or of the first such strategy; a ValueError only from scaling an empty table |
| OutliersTreater.TransformFailureKeys | app/outliers_treater.py:25-30 | outside scaling of an empty table, the call fails iff `Class` or an active strategy (while there is an attribute) is missing, and always with a KeyError |
| OutliersTreater.OverAttributesNoTreatment | app/outliers_treater.py:52-53 | with no treatment the inner loop changes nothing |
| OutliersTreater.TreatedUnchanged | app/outliers_treater.py:27-28 | with no treatment or no active strategy the outer loop changes nothing |
| OutliersTreater.TransformInactive | app/outliers_treater.py:27-28 | with every flag false the result is the input table |
| OutliersTreater.TransformNoTreatment | app/outliers_treater.py:52-53 | with `None` or an unrecognised treatment a successful call returns the input table |
| OutliersTreater.OverAttributesConstant | app/outliers_treater.py:29-47 | in one strategy's pass, a cell takes the constant exactly when its attribute is keyed and its label is in that list |
| OutliersTreater.TreatedConstant | app/outliers_treater.py:27-47 | across strategies, a cell takes the constant exactly when some active strategy flags it for an attribute |
| OutliersTreater.TransformConstant | app/outliers_treater.py:25-47 | `constant`: index and columns unchanged; a cell takes the constant exactly when it is not a `Class` cell and some active strategy flags its label for its column; all others keep their value |
| OutliersTreater.OverAttributesRemove | app/outliers_treater.py:29-50 | one strategy's pass of `remove` equals dropping the union of its lists over the keyed attributes |
| OutliersTreater.TreatedRemove | app/outliers_treater.py:27-50 | the outer loop of `remove` equals dropping the union of all active strategies' lists |
| OutliersTreater.TransformRemove | app/outliers_treater.py:25-50 | `remove`: the result is the input without every flagged label; the index keeps its order and surviving cells their values |
| OutliersTreater.TransformRemoveIdempotent | app/outliers_treater.py:32-50 | `remove` applied again with the same report to its own result changes nothing |
| OutliersTreater.OverAttributesRewrite | app/outliers_treater.py:29-44 | one strategy's pass rewrites a column once if it is a keyed attribute, and otherwise not at all |
| OutliersTreater.TreatedRewrite | app/outliers_treater.py:27-44 | across strategies a column is rewritten as many times as active strategies key it |
| OutliersTreater.TransformRewrite | app/outliers_treater.py:25-44 | whole-column treatments keep the index; the column is rewritten once per active strategy whose sub-report keys it, even with an empty list; `Class` zero times |
| OutliersTreater.TransformElementwise | app/outliers_treater.py:34-41 | under `log`, `sqrt` or `cbrt` each value of a treated column ends as the iterated guarded map, a non-positive value as 0; untreated columns keep their values |
| OutliersTreater.OverAttributesKeeps | app/outliers_treater.py:30 | a column not keyed in a strategy's sub-report keeps its surviving cells through that pass |
| OutliersTreater.TreatedKeeps | app/outliers_treater.py:30 | a column no active strategy keys keeps its surviving cells through the outer loop |
| OutliersTreater.TransformUntouched | app/outliers_treater.py:25-30 | `Class`, and every column no active strategy keys, keeps the value of every surviving row under every treatment; no row is added |

## Left out

- Floating point: values are exact `real`. NaN and infinity, numpy's rounding, and the NaN of an empty column's mean or quantile are not modelled; an empty column's mean and quantiles are 0, which no comparison on an empty table reads.
- `np.log`, `np.sqrt` and `np.cbrt` are uninterpreted functions on `real`. Their numeric results are not modelled; the `x > 0` guard around them is.
- `MinMaxScaler().fit_transform` is an uninterpreted function of the whole column and a position. Its numeric result is not modelled. The shared `scaler` object is re-fitted on every call, so its result depends only on the current column. Its one failure reachable here, the ValueError for a column with no rows, is modelled.
- OutliersTreater.TransformOutliers: `treatment_constant_value` is a `real`. The default `None`, which pandas stores as NaN, is not modelled.
- OutliersTreater.ParseTreatment: `treatment_method` is `None` or a string. Other Python values, which compare unequal to all six keywords and so also treat nothing, are not modelled.
- The report is keyed by the four strategies rather than by arbitrary strings, with `Name` giving each strategy's key. A report with extra keys behaves the same in the code, because only the four keys are read.
- Row labels are integers and every attribute cell is a number. A string or other non-integer index is not modelled: with it, the z-score and robust z-score position lists would match no label at app/outliers_treater.py:32. A non-numeric attribute column is not modelled either: there `zscore`, the quantiles and the `x > 0` guard raise TypeError.
- Duplicate row labels and duplicate column names, which pandas allows, are excluded: every table is well formed.
- The `print` in the no-treatment branch (app/outliers_treater.py:53) is output only and is omitted.
- The other parts of the repository are not part of this model: storage access, HTTP routing, the resampling wrappers and the descriptive statistics.
