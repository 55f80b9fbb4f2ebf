/**
 * `detect_outliers`: for every column except `Class`, the rows flagged under
 * the z-score, robust z-score, IQR and winsorization rules.
 *
 * The z-score and robust z-score lists are POSITIONS 0..n-1 (from `np.where`);
 * the IQR and winsorization lists are index LABELS (from `df[mask].index`).
 */
module OutliersDetector {
  import opened Tables
  import opened Statistics

  /** The four detection strategies; `Name` is the key each has in the report dictionary. */
  datatype Strategy = ZScore | RobustZScore | Iqr | Winsorization

  function Name(s: Strategy): string {
    match s
    case ZScore => "z_score"
    case RobustZScore => "robust_z_score"
    case Iqr => "iqr"
    case Winsorization => "winsorization"
  }

  /** Distinct strategies have distinct dictionary keys. */
  lemma NameInjective(s: Strategy, u: Strategy)
    ensures Name(s) == Name(u) <==> s == u
  {
    if s != u {
      assert Name(s)[0] != Name(u)[0] || |Name(s)| != |Name(u)|;
    }
  }

  /** strategy -> column -> flagged row identifiers */
  type Report = map<Strategy, map<Column, seq<int>>>

  function ReportKeys(): set<Strategy> {
    {ZScore, RobustZScore, Iqr, Winsorization}
  }

  // ------------------------------------------------- identifiers from masks

  /** `np.where(mask)[0].tolist()`: the positions where the mask holds. */
  function Where(mask: seq<bool>): seq<int> {
    if mask == [] then []
    else
      var n := |mask| - 1;
      var r := Where(mask[..n]);
      if mask[n] then r + [n] else r
  }

  /** `Where` lists exactly the positions where the mask holds, strictly ascending. */
  lemma {:induction false} WhereSpec(mask: seq<bool>)
    ensures var r := Where(mask);
      && (forall p :: p in r <==> 0 <= p < |mask| && mask[p])
      && (forall i :: 0 <= i < |r| ==> 0 <= r[i] < |mask|)
      && (forall i, j :: 0 <= i < j < |r| ==> r[i] < r[j])
  {
    if mask != [] {
      var n := |mask| - 1;
      WhereSpec(mask[..n]);
    }
  }

  /** `df[mask].index.tolist()`: the labels of the rows where the mask holds. */
  function Select(index: seq<Label>, mask: seq<bool>): seq<int>
    requires |index| == |mask|
  {
    if mask == [] then []
    else
      var n := |mask| - 1;
      var r := Select(index[..n], mask[..n]);
      if mask[n] then r + [index[n]] else r
  }

  /** The k-th selected label is the label at the k-th position `Where` reports. */
  lemma {:induction false} SelectIsIndexAtWhere(index: seq<Label>, mask: seq<bool>)
    requires |index| == |mask|
    ensures var r, w := Select(index, mask), Where(mask);
      |r| == |w| && forall k :: 0 <= k < |r| ==> 0 <= w[k] < |index| && r[k] == index[w[k]]
  {
    WhereSpec(mask);
    if mask != [] {
      var n := |mask| - 1;
      SelectIsIndexAtWhere(index[..n], mask[..n]);
      WhereSpec(mask[..n]);
    }
  }

  /** A label is selected exactly when some row carrying it satisfies the mask. */
  lemma SelectMembers(index: seq<Label>, mask: seq<bool>, l: Label)
    requires |index| == |mask|
    ensures l in Select(index, mask) <==> exists i :: 0 <= i < |mask| && mask[i] && index[i] == l
  {
    var r, w := Select(index, mask), Where(mask);
    WhereSpec(mask);
    SelectIsIndexAtWhere(index, mask);
    if l in r {
      var k :| 0 <= k < |r| && r[k] == l;
      assert w[k] in w;
    }
    if exists i :: 0 <= i < |mask| && mask[i] && index[i] == l {
      var i :| 0 <= i < |mask| && mask[i] && index[i] == l;
      assert i in w;
      var k :| 0 <= k < |w| && w[k] == i;
      assert r[k] == l;
    }
  }

  /** Selected labels are taken from the index in row order, so distinct labels give a duplicate-free list. */
  lemma SelectDistinct(index: seq<Label>, mask: seq<bool>)
    requires |index| == |mask| && Distinct(index)
    ensures Distinct(Select(index, mask))
  {
    var r, w := Select(index, mask), Where(mask);
    WhereSpec(mask);
    SelectIsIndexAtWhere(index, mask);
    forall i, j | 0 <= i < j < |r| ensures r[i] != r[j] {
      assert w[i] < w[j];
    }
  }

  /** The two facts about `Select` the IQR and winsorization lists state. */
  lemma SelectFacts(index: seq<Label>, mask: seq<bool>)
    requires |index| == |mask|
    ensures forall l :: l in Select(index, mask) <==> exists i :: 0 <= i < |mask| && index[i] == l && mask[i]
    ensures Distinct(index) ==> Distinct(Select(index, mask))
  {
    forall l ensures l in Select(index, mask) <==> exists i :: 0 <= i < |mask| && mask[i] && index[i] == l {
      SelectMembers(index, mask, l);
    }
    if Distinct(index) {
      SelectDistinct(index, mask);
    }
  }

  function Range(n: nat): (r: seq<Label>)
    ensures |r| == n && forall i :: 0 <= i < n ==> r[i] == i
  {
    seq(n, i => i)
  }

  /** The mask that holds at position `i` only. */
  function Single(n: nat, i: nat): (m: seq<bool>)
    ensures |m| == n
  {
    seq(n, j => j == i)
  }

  lemma {:induction false} WhereSingle(n: nat, i: nat)
    ensures Where(Single(n, i)) == if i < n then [i] else []
  {
    if n > 0 {
      assert Single(n, i)[..n - 1] == Single(n - 1, i);
      WhereSingle(n - 1, i);
    }
  }

  /** Positions and labels name the same rows for every mask exactly when the index is 0..n-1. */
  lemma PositionsAreLabelsIff(index: seq<Label>)
    ensures (forall mask: seq<bool> :: |mask| == |index| ==> Select(index, mask) == Where(mask))
        <==> index == Range(|index|)
  {
    if index == Range(|index|) {
      forall mask: seq<bool> | |mask| == |index| ensures Select(index, mask) == Where(mask) {
        SelectIsIndexAtWhere(index, mask);
      }
    } else {
      var i :| 0 <= i < |index| && index[i] != i;
      var mask := Single(|index|, i);
      SelectIsIndexAtWhere(index, mask);
      WhereSingle(|index|, i);
      assert Select(index, mask)[0] == index[i] != Where(mask)[0];
    }
  }

  // ------------------------------------------------------------ the rules

  /** `|zscore(x)| > 3` with the population standard deviation, squared to stay in the reals. */
  predicate ZScoreOutlier(xs: seq<real>, x: real) {
    Sq(x - Mean(xs)) > 9.0 * Variance(xs)
  }

  /** `|0.6745 * (x - median) / MAD| > 3.5`, multiplied out by the MAD. */
  predicate RobustZScoreOutlier(xs: seq<real>, x: real) {
    0.6745 * Abs(x - Median(xs)) > 3.5 * Mad(xs)
  }

  function LowerFence(xs: seq<real>): real {
    var q1, q3 := Quantile(xs, 0.25), Quantile(xs, 0.75);
    q1 - 1.5 * (q3 - q1)
  }

  function UpperFence(xs: seq<real>): real {
    var q1, q3 := Quantile(xs, 0.25), Quantile(xs, 0.75);
    q3 + 1.5 * (q3 - q1)
  }

  predicate IqrOutlier(xs: seq<real>, x: real) {
    x < LowerFence(xs) || x > UpperFence(xs)
  }

  predicate WinsorizationOutlier(xs: seq<real>, x: real) {
    x < Quantile(xs, 0.01) || x > Quantile(xs, 0.99)
  }

  function ZScoreMask(xs: seq<real>): (m: seq<bool>)
    ensures |m| == |xs|
  {
    seq(|xs|, i requires 0 <= i < |xs| => ZScoreOutlier(xs, xs[i]))
  }

  function RobustZScoreMask(xs: seq<real>): (m: seq<bool>)
    ensures |m| == |xs|
  {
    seq(|xs|, i requires 0 <= i < |xs| => RobustZScoreOutlier(xs, xs[i]))
  }

  function IqrMask(xs: seq<real>): (m: seq<bool>)
    ensures |m| == |xs|
  {
    seq(|xs|, i requires 0 <= i < |xs| => IqrOutlier(xs, xs[i]))
  }

  function WinsorizationMask(xs: seq<real>): (m: seq<bool>)
    ensures |m| == |xs|
  {
    seq(|xs|, i requires 0 <= i < |xs| => WinsorizationOutlier(xs, xs[i]))
  }

  /** `np.where(np.abs(stats.zscore(xs)) > 3)[0]`. */
  function ZScoreOutliers(xs: seq<real>): seq<int> {
    Where(ZScoreMask(xs))
  }

  /** `np.where(np.abs(0.6745 * (xs - median) / mad) > 3.5)[0]`. */
  function RobustZScoreOutliers(xs: seq<real>): seq<int> {
    Where(RobustZScoreMask(xs))
  }

  /** `xs[(xs < lower) | (xs > upper)].index`. */
  function IqrOutliers(index: seq<Label>, xs: seq<real>): seq<int>
    requires |index| == |xs|
  {
    Select(index, IqrMask(xs))
  }

  /** `xs[(xs < q01) | (xs > q99)].index`. */
  function WinsorizationOutliers(index: seq<Label>, xs: seq<real>): seq<int>
    requires |index| == |xs|
  {
    Select(index, WinsorizationMask(xs))
  }

  /** z-score: the positions, ascending, whose value is more than three standard deviations from the mean. */
  lemma ZScoreOutliersSpec(xs: seq<real>)
    ensures var r := ZScoreOutliers(xs);
      && (forall p :: p in r <==> 0 <= p < |xs| && ZScoreOutlier(xs, xs[p]))
      && forall i, j :: 0 <= i < j < |r| ==> 0 <= r[i] < r[j] < |xs|
  {
    WhereSpec(ZScoreMask(xs));
  }

  /** robust z-score: the positions, ascending, whose modified z-score exceeds 3.5. */
  lemma RobustZScoreOutliersSpec(xs: seq<real>)
    ensures var r := RobustZScoreOutliers(xs);
      && (forall p :: p in r <==> 0 <= p < |xs| && RobustZScoreOutlier(xs, xs[p]))
      && forall i, j :: 0 <= i < j < |r| ==> 0 <= r[i] < r[j] < |xs|
  {
    WhereSpec(RobustZScoreMask(xs));
  }

  /** IQR: the labels, in row order, of the rows outside the 1.5-IQR fences. */
  lemma IqrOutliersSpec(index: seq<Label>, xs: seq<real>)
    requires |index| == |xs|
    ensures var r := IqrOutliers(index, xs);
      && (forall l :: l in r <==> exists i :: 0 <= i < |xs| && index[i] == l && IqrOutlier(xs, xs[i]))
      && (Distinct(index) ==> Distinct(r))
  {
    SelectFacts(index, IqrMask(xs));
  }

  /** winsorization: the labels, in row order, of the rows outside the 1st-99th percentile band. */
  lemma WinsorizationOutliersSpec(index: seq<Label>, xs: seq<real>)
    requires |index| == |xs|
    ensures var r := WinsorizationOutliers(index, xs);
      && (forall l :: l in r <==> exists i :: 0 <= i < |xs| && index[i] == l && WinsorizationOutlier(xs, xs[i]))
      && (Distinct(index) ==> Distinct(r))
  {
    SelectFacts(index, WinsorizationMask(xs));
  }

  // --------------------------------------------------------------- report

  /** The list strategy `key` produces for a column with values `xs`. */
  function Outliers(key: Strategy, index: seq<Label>, xs: seq<real>): seq<int>
    requires |index| == |xs|
  {
    match key
    case ZScore => ZScoreOutliers(xs)
    case RobustZScore => RobustZScoreOutliers(xs)
    case Iqr => IqrOutliers(index, xs)
    case Winsorization => WinsorizationOutliers(index, xs)
  }

  /** Strategy and column to list, for every column of `t`. */
  function Entries(t: Table): (f: (Strategy, Column) -> seq<int>)
    requires WellFormed(t)
    ensures forall k, c :: c in t.columns ==> f(k, c) == Outliers(k, t.index, ColumnValues(t, c))
  {
    (k, c) => if c in t.columns then Outliers(k, t.index, ColumnValues(t, c)) else []
  }

  lemma EntriesAt(t: Table, c: Column)
    requires WellFormed(t) && c in t.columns
    ensures Entries(t)(ZScore, c) == ZScoreOutliers(ColumnValues(t, c))
    ensures Entries(t)(RobustZScore, c) == RobustZScoreOutliers(ColumnValues(t, c))
    ensures Entries(t)(Iqr, c) == IqrOutliers(t.index, ColumnValues(t, c))
    ensures Entries(t)(Winsorization, c) == WinsorizationOutliers(t.index, ColumnValues(t, c))
  {
  }

  const EmptyReport: Report := map[ZScore := map[], RobustZScore := map[], Iqr := map[], Winsorization := map[]]

  /** The report once the detector's loop has handled `columns` in order, entry `f(k, c)` for
      strategy `k` and column `c`. */
  function ReportOver(f: (Strategy, Column) -> seq<int>, columns: seq<Column>): (r: Report)
    ensures r.Keys == ReportKeys()
  {
    if columns == [] then EmptyReport
    else
      var n := |columns| - 1;
      var c := columns[n];
      AddColumn(ReportOver(f, columns[..n]), c, f(ZScore, c), f(RobustZScore, c), f(Iqr, c), f(Winsorization, c))
  }

  /** One pass of the detector's loop body: the four sub-dictionaries get column `c`, in turn. */
  function AddColumn(r: Report, c: Column, z: seq<int>, rz: seq<int>, iqr: seq<int>, w: seq<int>): (r': Report)
    requires ReportKeys() <= r.Keys
    ensures r'.Keys == r.Keys
    ensures r'[ZScore] == r[ZScore][c := z] && r'[RobustZScore] == r[RobustZScore][c := rz]
    ensures r'[Iqr] == r[Iqr][c := iqr] && r'[Winsorization] == r[Winsorization][c := w]
  {
    var r1 := r[ZScore := r[ZScore][c := z]];
    var r2 := r1[RobustZScore := r1[RobustZScore][c := rz]];
    var r3 := r2[Iqr := r2[Iqr][c := iqr]];
    r3[Winsorization := r3[Winsorization][c := w]]
  }

  /** The loop body's step, with the four lists written out. */
  lemma ReportOverStep(t: Table, columns: seq<Column>, i: nat)
    requires WellFormed(t) && i < |columns| && columns[i] in t.columns
    ensures var c, xs := columns[i], ColumnValues(t, columns[i]);
      ReportOver(Entries(t), columns[..i + 1]) ==
        AddColumn(ReportOver(Entries(t), columns[..i]), c, ZScoreOutliers(xs), RobustZScoreOutliers(xs),
                  IqrOutliers(t.index, xs), WinsorizationOutliers(t.index, xs))
  {
    assert columns[..i + 1][..i] == columns[..i];
    EntriesAt(t, columns[i]);
  }

  /** Whatever the order of the columns: the four keys, each with exactly these columns. */
  lemma {:induction false} ReportOverKeys(f: (Strategy, Column) -> seq<int>, columns: seq<Column>)
    ensures forall k, c :: k in ReportOver(f, columns) ==> (c in ReportOver(f, columns)[k] <==> c in columns)
  {
    if columns != [] {
      var n := |columns| - 1;
      var last := columns[n];
      ReportOverKeys(f, columns[..n]);
      assert columns == columns[..n] + [last];
      assert forall c :: c in columns <==> c in columns[..n] || c == last;
      var r, r' := ReportOver(f, columns), ReportOver(f, columns[..n]);
      forall k, c | k in r ensures c in r[k] <==> c in columns {
        assert r[k] == r'[k][last := f(k, last)] by {
          match k
          case ZScore =>
          case RobustZScore =>
          case Iqr =>
          case Winsorization =>
        }
        assert k in r';
        assert c in r'[k] <==> c in columns[..n];
      }
    }
  }

  /** Each entry is `f` of its strategy and column, also when a column repeats. */
  lemma {:induction false} ReportOverEntry(f: (Strategy, Column) -> seq<int>, columns: seq<Column>, k: Strategy, c: Column)
    requires c in columns
    ensures var r := ReportOver(f, columns);
      k in r && c in r[k] && r[k][c] == f(k, c)
  {
    ReportOverKeys(f, columns);
    var n := |columns| - 1;
    var last := columns[n];
    ReportOverKeys(f, columns[..n]);
    if c != last {
      assert c in columns[..n] by {
        assert columns == columns[..n] + [last];
      }
      ReportOverEntry(f, columns[..n], k, c);
    }
  }

  /** `detect_outliers(df)`: a KeyError when there is no `Class` column, otherwise the four-key report. */
  function Detect(t: Table): (r: Result<Report>)
    requires WellFormed(t)
    ensures r.Failure? <==> ClassColumn !in t.columns
    ensures r.Success? ==> r.value.Keys == ReportKeys()
    ensures r.Success? ==> forall k, c :: k in r.value ==> (c in r.value[k] <==> c in t.columns && c != ClassColumn)
  {
    if ClassColumn !in t.columns then Failure(KeyError(ClassColumn))
    else
      var attrs, f := Attributes(t.columns), Entries(t);
      ReportOverKeys(f, attrs);
      Success(ReportOver(f, attrs))
  }

  /** Each entry of the report is its strategy's list for that column. */
  lemma DetectEntry(t: Table, k: Strategy, c: Column)
    requires WellFormed(t) && ClassColumn in t.columns && c in t.columns && c != ClassColumn
    ensures var r := Detect(t);
      r.Success? && k in r.value && c in r.value[k] && r.value[k][c] == Outliers(k, t.index, ColumnValues(t, c))
  {
    ReportOverEntry(Entries(t), Attributes(t.columns), k, c);
  }

  /**
   * The source function. It reads the input frame and never modifies it; the
   * outer loop fills the nested dictionary column by column.
   */
  method DetectOutliers(df: Frame) returns (r: Result<Report>)
    requires df.Valid()
    ensures r == Detect(df.Value())
  {
    var t := df.Value();
    if ClassColumn !in df.columns {
      return Failure(KeyError(ClassColumn));
    }
    var columns := Attributes(df.columns);
    var report: Report := map[ZScore := map[], RobustZScore := map[], Iqr := map[], Winsorization := map[]];
    ghost var f := Entries(t);
    for i := 0 to |columns|
      invariant report == ReportOver(f, columns[..i])
    {
      var column := columns[i];
      var xs := df.Column(column);
      ReportOverStep(t, columns, i);
      report := report[ZScore := report[ZScore][column := ZScoreOutliers(xs)]];
      report := report[RobustZScore := report[RobustZScore][column := RobustZScoreOutliers(xs)]];
      report := report[Iqr := report[Iqr][column := IqrOutliers(df.index, xs)]];
      report := report[Winsorization := report[Winsorization][column := WinsorizationOutliers(df.index, xs)]];
    }
    assert columns[..|columns|] == columns;
    return Success(report);
  }

  // ------------------------------------------------------ rule properties

  lemma {:induction false} WhereNone(mask: seq<bool>)
    requires forall i :: 0 <= i < |mask| ==> !mask[i]
    ensures Where(mask) == []
  {
    if mask != [] {
      WhereNone(mask[..|mask| - 1]);
    }
  }

  lemma SelectNone(index: seq<Label>, mask: seq<bool>)
    requires |index| == |mask| && forall i :: 0 <= i < |mask| ==> !mask[i]
    ensures Select(index, mask) == []
  {
    WhereNone(mask);
    SelectIsIndexAtWhere(index, mask);
  }

  /** A constant column has no outliers under any of the four rules. */
  lemma ConstantColumnFlagsNothing(index: seq<Label>, xs: seq<real>, c: real)
    requires |index| == |xs|
    requires forall i :: 0 <= i < |xs| ==> xs[i] == c
    ensures ZScoreOutliers(xs) == [] && RobustZScoreOutliers(xs) == []
    ensures IqrOutliers(index, xs) == [] && WinsorizationOutliers(index, xs) == []
  {
    if xs == [] {
      WhereNone(ZScoreMask(xs));
      WhereNone(RobustZScoreMask(xs));
      SelectNone(index, IqrMask(xs));
      SelectNone(index, WinsorizationMask(xs));
    } else {
      ConstantMoments(xs, c);
      ConstantMedianMad(xs, c);
      QuantileConstant(xs, 0.25, c);
      QuantileConstant(xs, 0.75, c);
      QuantileConstant(xs, 0.01, c);
      QuantileConstant(xs, 0.99, c);
      WhereNone(ZScoreMask(xs));
      WhereNone(RobustZScoreMask(xs));
      SelectNone(index, IqrMask(xs));
      SelectNone(index, WinsorizationMask(xs));
    }
  }

  /** With ten values or fewer no value is more than three standard deviations from the mean
      (Samuelson's inequality), so the z-score rule flags nothing. */
  lemma SmallColumnNoZScoreOutliers(xs: seq<real>)
    requires |xs| <= 10
    ensures ZScoreOutliers(xs) == []
  {
    forall i | 0 <= i < |xs| ensures !ZScoreOutlier(xs, xs[i]) {
      var n, v, d := (|xs| - 1) as real, Variance(xs), Sq(xs[i] - Mean(xs));
      Samuelson(xs, i);
      assert d <= n * v;
      MulMonotone(n, 9.0, v);
      assert n * v <= 9.0 * v;
    }
    WhereNone(ZScoreMask(xs));
  }

  /** When the MAD is zero the robust rule flags exactly the values that differ from the median. */
  lemma ZeroMadFlagsNonMedian(xs: seq<real>, x: real)
    requires Mad(xs) == 0.0
    ensures RobustZScoreOutlier(xs, x) <==> x != Median(xs)
  {
  }

  /**
   * The robust rule as the source computes it, `|0.6745 * (x - median) / MAD| > 3.5`: for a
   * non-zero MAD it is this comparison; for a zero MAD the quotient is infinite (flagged)
   * unless `x` is the median (NaN, not flagged).
   */
  lemma RobustRuleAsComputed(xs: seq<real>, x: real)
    ensures var m, mad := Median(xs), Mad(xs);
      RobustZScoreOutlier(xs, x) <==> if mad != 0.0 then Abs(0.6745 * (x - m) / mad) > 3.5 else x != m
  {
    var m, mad := Median(xs), Mad(xs);
    MadNonNegative(xs);
    if mad != 0.0 {
      QuotientExceeds(0.6745 * (x - m), mad, 3.5);
      assert Abs(0.6745 * (x - m)) == 0.6745 * Abs(x - m);
    }
  }

  /** For a positive divisor: `|a / d| > k` exactly when `|a| > k * d`. */
  lemma QuotientExceeds(a: real, d: real, k: real)
    requires d > 0.0
    ensures Abs(a / d) > k <==> Abs(a) > k * d
  {
    var q := a / d;
    assert a == q * d;
    if q >= 0.0 {
      MulNonNegative(q, d);
    } else {
      MulPositive(-q, d);
    }
    assert Abs(a) == Abs(q) * d;
    if Abs(q) > k {
      MulStrict(k, Abs(q), d);
    } else {
      MulMonotone(Abs(q), k, d);
    }
  }

  lemma MulStrict(p: real, q: real, m: real)
    requires p < q && m > 0.0
    ensures p * m < q * m
  {
    MulPositive(q - p, m);
    assert (q - p) * m == q * m - p * m;
  }

  /**
   * The z-score rule as the source computes it, `|(x - mean) / std| > 3` with the population
   * standard deviation: for any `sd >= 0` whose square is the variance, a value of the column
   * is flagged exactly when `sd > 0` and its z-score exceeds 3. A zero `sd` means a constant
   * column, whose z-scores are NaN and flag nothing.
   */
  lemma ZScoreRuleAsComputed(xs: seq<real>, i: nat, sd: real)
    requires i < |xs| && sd >= 0.0 && sd * sd == Variance(xs)
    ensures ZScoreOutlier(xs, xs[i]) <==> sd > 0.0 && Abs((xs[i] - Mean(xs)) / sd) > 3.0
  {
    var d := xs[i] - Mean(xs);
    if sd == 0.0 {
      Samuelson(xs, i);
      assert (|xs| - 1) as real * Variance(xs) == 0.0;
    } else {
      QuotientExceeds(d, sd, 3.0);
      SquareExceeds(Abs(d), 3.0 * sd);
      assert Sq(d) == Abs(d) * Abs(d);
      assert (3.0 * sd) * (3.0 * sd) == 9.0 * Variance(xs);
    }
  }

  /** For non-negative reals: `a > b` exactly when `a * a > b * b`. */
  lemma SquareExceeds(a: real, b: real)
    requires a >= 0.0 && b >= 0.0
    ensures a > b <==> a * a > b * b
  {
    if a > b {
      MulPositive(a - b, a + b);
      assert (a - b) * (a + b) == a * a - b * b;
    } else {
      MulNonNegative(b - a, a + b);
      assert (b - a) * (a + b) == b * b - a * a;
    }
  }

  /** The IQR fences lie outside [Q1, Q3], so a value between the quartiles is never flagged. */
  lemma IqrQuartileRangeNotFlagged(xs: seq<real>, x: real)
    requires Quantile(xs, 0.25) <= x <= Quantile(xs, 0.75)
    ensures !IqrOutlier(xs, x)
  {
    QuantileMonotone(xs, 0.25, 0.75);
  }
}
