/**
 * `transform_outliers`: on a copy of the table, for every active strategy (in
 * the order z-score, robust z-score, IQR, winsorization) and every column
 * except `Class`, treat the rows the report flags for that strategy and column:
 * rewrite the whole column (log, sqrt, cbrt, min-max scaling), overwrite the
 * flagged cells with a constant, or drop the flagged rows.
 */
module OutliersTreater {
  import opened Tables
  import opened OutliersDetector

  /** The four boolean parameters that switch the strategies on. */
  datatype Flags = Flags(zScore: bool, robustZScore: bool, iqr: bool, winsorization: bool)

  function Active(flags: Flags, s: Strategy): bool {
    match s
    case ZScore => flags.zScore
    case RobustZScore => flags.robustZScore
    case Iqr => flags.iqr
    case Winsorization => flags.winsorization
  }

  /** The iteration order of the `methods` dictionary. */
  const Strategies: seq<Strategy> := [ZScore, RobustZScore, Iqr, Winsorization]

  lemma StrategiesListsAll(s: Strategy)
    ensures s in Strategies
  {
    match s
    case ZScore => assert Strategies[0] == s;
    case RobustZScore => assert Strategies[1] == s;
    case Iqr => assert Strategies[2] == s;
    case Winsorization => assert Strategies[3] == s;
  }

  // ------------------------------------------------------------ treatments

  /** What `treatment_method` selects. Anything else, `None` included, treats nothing. */
  datatype Treatment = Log | Sqrt | Cbrt | Scaling | Constant | Remove | NoTreatment

  /** The string that selects a treatment. */
  function Keyword(how: Treatment): string
    requires how != NoTreatment
  {
    match how
    case Log => "log"
    case Sqrt => "sqrt"
    case Cbrt => "cbrt"
    case Scaling => "scaling"
    case Constant => "constant"
    case Remove => "remove"
  }

  function ParseTreatment(m: Option<string>): Treatment {
    match m
    case None => NoTreatment
    case Some(name) =>
      if name == "log" then Log
      else if name == "sqrt" then Sqrt
      else if name == "cbrt" then Cbrt
      else if name == "scaling" then Scaling
      else if name == "constant" then Constant
      else if name == "remove" then Remove
      else NoTreatment
  }

  /** Each treatment is selected by its keyword and by nothing else; `None` and every other
      string select no treatment. */
  lemma ParseTreatmentSpec(m: Option<string>, how: Treatment)
    requires how != NoTreatment
    ensures ParseTreatment(Some(Keyword(how))) == how
    ensures ParseTreatment(m) == how <==> m == Some(Keyword(how))
    ensures ParseTreatment(m) == NoTreatment <==>
      m.None? || m.value !in {"log", "sqrt", "cbrt", "scaling", "constant", "remove"}
  {
  }

  /**
   * The numeric routines the treatments call, left uninterpreted: `np.log`,
   * `np.sqrt`, `np.cbrt`, and `MinMaxScaler().fit_transform` as the value it
   * gives position `i` of the column it is fitted on.
   */
  datatype Numerics = Numerics(log: real -> real, sqrt: real -> real, cbrt: real -> real,
                               scale: (seq<real>, int) -> real)

  /** `treatment_method`, `treatment_constant_value` and the numeric routines. */
  datatype Settings = Settings(how: Treatment, constant: real, num: Numerics)

  predicate IsElementwise(how: Treatment) {
    how == Log || how == Sqrt || how == Cbrt
  }

  /** The treatments that replace a whole column. */
  predicate RewritesColumn(how: Treatment) {
    IsElementwise(how) || how == Scaling
  }

  function Elementwise(how: Treatment, num: Numerics): real -> real
    requires IsElementwise(how)
  {
    if how == Log then num.log else if how == Sqrt then num.sqrt else num.cbrt
  }

  /** `lambda x: f(x) if x > 0 else 0`. */
  function Guarded(f: real -> real, x: real): real {
    if x > 0.0 then f(x) else 0.0
  }

  /** The column a whole-column treatment writes back. */
  function Rewrite(how: Treatment, num: Numerics, xs: seq<real>): (ys: seq<real>)
    requires RewritesColumn(how)
    ensures |ys| == |xs|
  {
    if how == Scaling then seq(|xs|, i => num.scale(xs, i))
    else seq(|xs|, i requires 0 <= i < |xs| => Guarded(Elementwise(how, num), xs[i]))
  }

  /** `k` whole-column treatments in a row. */
  function RewriteTimes(how: Treatment, num: Numerics, k: nat, xs: seq<real>): (ys: seq<real>)
    requires RewritesColumn(how)
    ensures |ys| == |xs|
  {
    if k == 0 then xs else Rewrite(how, num, RewriteTimes(how, num, k - 1, xs))
  }

  /** `k` applications of a guarded map. */
  function Iterate(f: real -> real, k: nat, x: real): real {
    if k == 0 then x else Guarded(f, Iterate(f, k - 1, x))
  }

  /** A repeated log, sqrt or cbrt treatment acts on each value by itself. */
  lemma {:induction false} RewriteTimesPointwise(how: Treatment, num: Numerics, k: nat, xs: seq<real>)
    requires IsElementwise(how)
    ensures forall i :: 0 <= i < |xs| ==>
      RewriteTimes(how, num, k, xs)[i] == Iterate(Elementwise(how, num), k, xs[i])
  {
    if k > 0 {
      RewriteTimesPointwise(how, num, k - 1, xs);
    }
  }

  /** Once a guarded map has run, a value that was not positive is 0, however often it runs. */
  lemma {:induction false} IterateNonPositive(f: real -> real, k: nat, x: real)
    requires k >= 1 && x <= 0.0
    ensures Iterate(f, k, x) == 0.0
  {
    if k > 1 {
      IterateNonPositive(f, k - 1, x);
    }
  }

  // ------------------------------------------------------------- one pair

  /** The loop body for one attribute `c` whose flagged list is `flagged`. */
  function Treat(t: Table, c: Column, flagged: seq<int>, opts: Settings): (u: Table)
    requires WellFormed(t) && c in t.columns
    ensures WellFormed(u) && u.columns == t.columns
    ensures opts.how != Remove ==> u.index == t.index
  {
    var valid := Intersect(t.index, flagged);
    if opts.how == Constant then WithCells(t, c, Elems(valid), opts.constant)
    else if opts.how == Remove then DropRows(t, Elems(valid))
    else if opts.how == NoTreatment then t
    else WithColumn(t, c, Rewrite(opts.how, opts.num, ColumnValues(t, c)))
  }

  /** `constant`: exactly the flagged cells of `c` that are in the index take the constant. */
  lemma TreatConstant(t: Table, c: Column, flagged: seq<int>, opts: Settings)
    requires WellFormed(t) && c in t.columns && opts.how == Constant
    ensures var u := Treat(t, c, flagged, opts);
      u.index == t.index &&
      forall d, l :: d in t.cells && l in t.cells[d] ==>
        d in u.cells && l in u.cells[d] &&
        u.cells[d][l] == if d == c && l in flagged then opts.constant else t.cells[d][l]
  {
  }

  /** `remove`: the flagged rows go, whether or not all flagged labels are in the index. */
  lemma TreatRemove(t: Table, c: Column, flagged: seq<int>, opts: Settings)
    requires WellFormed(t) && c in t.columns && opts.how == Remove
    ensures Treat(t, c, flagged, opts) == DropRows(t, Elems(flagged))
  {
    var valid := Elems(Intersect(t.index, flagged));
    var extra := Elems(flagged) - valid;
    assert valid + extra == Elems(flagged);
    DropRowsOutside(t, valid, extra);
  }

  /** Whole-column treatments: column `c` is rewritten, every other column and the index stay. */
  lemma TreatRewrite(t: Table, c: Column, flagged: seq<int>, opts: Settings, d: Column)
    requires WellFormed(t) && c in t.columns && d in t.columns && RewritesColumn(opts.how)
    ensures var u := Treat(t, c, flagged, opts);
      u.index == t.index &&
      ColumnValues(u, d) == if d == c then Rewrite(opts.how, opts.num, ColumnValues(t, c)) else ColumnValues(t, d)
  {
  }

  /** Every treatment of `c` leaves the other columns' surviving cells as they were. */
  lemma TreatKeeps(t: Table, c: Column, flagged: seq<int>, opts: Settings, d: Column)
    requires WellFormed(t) && c in t.columns && d in t.columns && d != c
    ensures var u := Treat(t, c, flagged, opts);
      (forall l :: l in u.index ==> l in t.index) &&
      d in u.cells && d in t.cells &&
      forall l :: l in u.cells[d] ==> l in t.cells[d] && u.cells[d][l] == t.cells[d][l]
  {
  }

  // ------------------------------------------------------------ the loops

  /** The inner loop over `attrs` for one strategy whose sub-report is `sub`. */
  function OverAttributes(t: Table, sub: map<Column, seq<int>>, attrs: seq<Column>, opts: Settings): (u: Table)
    requires WellFormed(t) && forall a :: a in attrs ==> a in t.columns
    ensures WellFormed(u) && u.columns == t.columns
    ensures opts.how != Remove ==> u.index == t.index
  {
    if attrs == [] then t
    else
      var n := |attrs| - 1;
      assert forall a :: a in attrs[..n] ==> a in attrs;
      var u := OverAttributes(t, sub, attrs[..n], opts);
      if attrs[n] in sub then Treat(u, attrs[n], sub[attrs[n]], opts) else u
  }

  /** The outer loop over the strategies `ss`, treating with the active ones the report has. */
  function Treated(t: Table, report: Report, flags: Flags, ss: seq<Strategy>, attrs: seq<Column>, opts: Settings): (u: Table)
    requires WellFormed(t) && forall a :: a in attrs ==> a in t.columns
    ensures WellFormed(u) && u.columns == t.columns
    ensures opts.how != Remove ==> u.index == t.index
  {
    if ss == [] then t
    else
      var n := |ss| - 1;
      var u := Treated(t, report, flags, ss[..n], attrs, opts);
      if Active(flags, ss[n]) && ss[n] in report then OverAttributes(u, report[ss[n]], attrs, opts) else u
  }

  /** `MinMaxScaler` needs at least one row: `scaling` refuses the columns of a table with
      an empty index, and no treatment before it changes the index. */
  predicate ScalingRefused(index: seq<Label>, opts: Settings) {
    opts.how == Scaling && index == []
  }

  /**
   * The exception the inner loop of an active strategy `s` raises, if any. Looking `s` up in
   * the report fails at the first attribute when the report does not have it. Otherwise,
   * when scaling is refused, the first attribute the sub-report has raises a ValueError.
   */
  function StrategyError(report: Report, attrs: seq<Column>, refused: bool, s: Strategy): (e: Option<Error>)
    ensures e.Some? <==> attrs != [] && (s !in report || (refused && exists a :: a in attrs && a in report[s]))
    ensures attrs != [] && s !in report ==> e == Some(KeyError(Name(s)))
    ensures e == Some(ValueError) ==> refused
  {
    if attrs == [] then None
    else if s !in report then Some(KeyError(Name(s)))
    else if refused && exists a :: a in attrs && a in report[s] then Some(ValueError)
    else None
  }

  /** Strategy `s` raises an exception: it is active and its inner loop fails. */
  predicate Fails(report: Report, flags: Flags, attrs: seq<Column>, refused: bool, s: Strategy) {
    Active(flags, s) && StrategyError(report, attrs, refused, s).Some?
  }

  /** The first strategy of `ss` that raises an exception, if any. */
  function FirstFailing(report: Report, flags: Flags, attrs: seq<Column>, refused: bool, ss: seq<Strategy>): (m: Option<Strategy>)
    ensures m.Some? ==> Fails(report, flags, attrs, refused, m.value)
  {
    if ss == [] then None
    else
      var n := |ss| - 1;
      var m := FirstFailing(report, flags, attrs, refused, ss[..n]);
      if m.Some? then m
      else if Fails(report, flags, attrs, refused, ss[n]) then Some(ss[n])
      else None
  }

  lemma {:induction false} FirstFailingSpec(report: Report, flags: Flags, attrs: seq<Column>, refused: bool, ss: seq<Strategy>)
    ensures FirstFailing(report, flags, attrs, refused, ss) == None <==>
      forall i :: 0 <= i < |ss| ==> !Fails(report, flags, attrs, refused, ss[i])
    ensures var m := FirstFailing(report, flags, attrs, refused, ss);
      m.Some? ==>
        exists i :: 0 <= i < |ss| && ss[i] == m.value && Fails(report, flags, attrs, refused, ss[i]) &&
          forall j :: 0 <= j < i ==> !Fails(report, flags, attrs, refused, ss[j])
  {
    if ss != [] {
      var n := |ss| - 1;
      FirstFailingSpec(report, flags, attrs, refused, ss[..n]);
      var m := FirstFailing(report, flags, attrs, refused, ss[..n]);
      assert forall i :: 0 <= i < n ==> ss[..n][i] == ss[i];
      if m.Some? {
        var i :| 0 <= i < n && ss[..n][i] == m.value && Fails(report, flags, attrs, refused, ss[..n][i]) &&
          forall j :: 0 <= j < i ==> !Fails(report, flags, attrs, refused, ss[..n][j]);
        assert ss[i] == m.value && Fails(report, flags, attrs, refused, ss[i]);
      } else if Fails(report, flags, attrs, refused, ss[n]) {
        assert forall j :: 0 <= j < n ==> !Fails(report, flags, attrs, refused, ss[j]);
      }
    }
  }

  /**
   * `transform_outliers`: a KeyError for a missing `Class` column, then the exception of the
   * first active strategy whose inner loop fails, otherwise the treated copy.
   */
  function Transform(t: Table, report: Report, flags: Flags, opts: Settings): (r: Result<Table>)
    requires WellFormed(t)
    ensures r.Success? ==> WellFormed(r.value) && r.value.columns == t.columns
  {
    if ClassColumn !in t.columns then Failure(KeyError(ClassColumn))
    else
      var attrs := Attributes(t.columns);
      var refused := ScalingRefused(t.index, opts);
      var m := FirstFailing(report, flags, attrs, refused, Strategies);
      if m.Some? then Failure(StrategyError(report, attrs, refused, m.value).value)
      else Success(Treated(t, report, flags, Strategies, attrs, opts))
  }

  /**
   * The source function. It copies the input once and works on the copy: cell
   * assignment and column assignment change it in place, `drop` replaces it by a
   * new frame. The input frame is not modified.
   */
  method TransformOutliers(df: Frame, report: Report, flags: Flags, treatmentMethod: Option<string>,
                           constant: real, num: Numerics)
    returns (r: Result<Frame>)
    requires df.Valid()
    ensures unchanged(df)
    ensures var expected := Transform(df.Value(), report, flags, Settings(ParseTreatment(treatmentMethod), constant, num));
      && (r.Failure? ==> expected == Failure(r.error))
      && (r.Success? ==> fresh(r.value) && r.value.Valid() && expected == Success(r.value.Value()))
  {
    var work := df.Copy();
    var how := ParseTreatment(treatmentMethod);
    var opts := Settings(how, constant, num);
    if ClassColumn !in work.columns {
      return Failure(KeyError(ClassColumn));
    }
    var attributes := Attributes(work.columns);
    r := TreatStrategies(work, report, flags, attributes, opts);
  }

  /** The outer loop over the four strategies, in order, on the working frame. */
  method TreatStrategies(work: Frame, report: Report, flags: Flags, attributes: seq<Column>, opts: Settings)
    returns (r: Result<Frame>)
    requires work.Valid() && forall a :: a in attributes ==> a in work.columns
    modifies work
    ensures var refused := ScalingRefused(old(work.index), opts);
      var m := FirstFailing(report, flags, attributes, refused, Strategies);
      && (r.Failure? <==> m.Some?)
      && (r.Failure? ==> r.error == StrategyError(report, attributes, refused, m.value).value)
    ensures r.Success? ==> (r.value == work || fresh(r.value)) && r.value.Valid()
    ensures r.Success? ==> r.value.Value() == Treated(old(work.Value()), report, flags, Strategies, attributes, opts)
  {
    var w := work;
    ghost var t := work.Value();
    ghost var refused := ScalingRefused(t.index, opts);
    for si := 0 to |Strategies|
      invariant (w == work || fresh(w)) && w.Valid() && w.columns == t.columns
      invariant FirstFailing(report, flags, attributes, refused, Strategies[..si]) == None
      invariant w.Value() == Treated(t, report, flags, Strategies[..si], attributes, opts)
    {
      var s := Strategies[si];
      TreatedNext(t, report, flags, Strategies, si, attributes, opts);
      FirstFailingNext(report, flags, attributes, refused, Strategies, si);
      assert ScalingRefused(w.index, opts) == refused;
      if Active(flags, s) {
        var treated := TreatAttributes(w, report, s, attributes, opts);
        if treated.Failure? {
          FirstFailingAt(report, flags, attributes, refused, si);
          return treated;
        }
        w := treated.value;
      }
    }
    assert Strategies[..|Strategies|] == Strategies;
    return Success(w);
  }

  /**
   * The inner loop for an active strategy `s`: every attribute that is a key of the
   * strategy's sub-report is treated in turn. Looking the strategy up in the report
   * raises a KeyError at the first attribute when the report does not have it, and the
   * ValueError `TreatColumn` raises for scaling a table with no rows is passed on.
   */
  method TreatAttributes(work: Frame, report: Report, s: Strategy, attributes: seq<Column>, opts: Settings)
    returns (r: Result<Frame>)
    requires work.Valid() && forall a :: a in attributes ==> a in work.columns
    modifies work
    ensures var e := StrategyError(report, attributes, ScalingRefused(old(work.index), opts), s);
      (r.Failure? <==> e.Some?) && (r.Failure? ==> r.error == e.value)
    ensures r.Success? ==> (r.value == work || fresh(r.value)) && r.value.Valid()
    ensures r.Success? ==>
      r.value.Value() == if s in report then OverAttributes(old(work.Value()), report[s], attributes, opts)
                         else old(work.Value())
  {
    var w := work;
    ghost var t := work.Value();
    ghost var refused := ScalingRefused(t.index, opts);
    for ai := 0 to |attributes|
      invariant (w == work || fresh(w)) && w.Valid() && w.columns == t.columns
      invariant ai > 0 ==> s in report && w.Value() == OverAttributes(t, report[s], attributes[..ai], opts)
      invariant ai == 0 ==> w.Value() == t
      invariant ai > 0 && refused ==> forall a :: a in attributes[..ai] ==> a !in report[s]
    {
      var attribute := attributes[ai];
      if s !in report {
        return Failure(KeyError(Name(s)));
      }
      assert attributes[..ai + 1][..ai] == attributes[..ai];
      assert ScalingRefused(w.index, opts) == refused;
      if attribute in report[s] {
        var treated := TreatColumn(w, attribute, report[s][attribute], opts);
        if treated.Failure? {
          return treated;
        }
        w := treated.value;
      }
      assert forall a :: a in attributes[..ai + 1] ==> a in attributes[..ai] || a == attribute;
    }
    assert attributes[..|attributes|] == attributes;
    return Success(w);
  }

  /**
   * The body of the inner loop for attribute `c` once its flagged labels are known: the
   * labels are first narrowed to those of the current index; cell and column assignment
   * change the frame in place, `drop` gives a new one, and `MinMaxScaler` raises a
   * ValueError on a column with no rows.
   */
  method TreatColumn(work: Frame, c: Column, flagged: seq<int>, opts: Settings) returns (r: Result<Frame>)
    requires work.Valid() && c in work.columns
    modifies work
    ensures r.Failure? <==> ScalingRefused(old(work.index), opts)
    ensures r.Failure? ==> r.error == ValueError && unchanged(work)
    ensures r.Success? ==> (r.value == work || fresh(r.value)) && r.value.Valid()
    ensures r.Success? ==> r.value.Value() == Treat(old(work.Value()), c, flagged, opts)
  {
    var valid := Intersect(work.index, flagged);
    var next := work;
    if RewritesColumn(opts.how) {
      // log, sqrt, cbrt and scaling all assign a new whole column
      if opts.how == Scaling && |work.index| == 0 {
        return Failure(ValueError);
      }
      var xs := work.Column(c);
      work.AssignColumn(c, Rewrite(opts.how, opts.num, xs));
    } else if opts.how == Constant {
      work.AssignCells(valid, c, opts.constant);
    } else if opts.how == Remove {
      next := work.Drop(valid);
    }
    return Success(next);
  }

  /** One more strategy of the outer loop. */
  lemma TreatedNext(t: Table, report: Report, flags: Flags, ss: seq<Strategy>, i: nat, attrs: seq<Column>, opts: Settings)
    requires WellFormed(t) && (forall a :: a in attrs ==> a in t.columns) && i < |ss|
    ensures var u := Treated(t, report, flags, ss[..i], attrs, opts);
      Treated(t, report, flags, ss[..i + 1], attrs, opts) ==
        if Active(flags, ss[i]) && ss[i] in report then OverAttributes(u, report[ss[i]], attrs, opts) else u
  {
    assert ss[..i + 1][..i] == ss[..i];
  }

  lemma FirstFailingNext(report: Report, flags: Flags, attrs: seq<Column>, refused: bool, ss: seq<Strategy>, i: nat)
    requires i < |ss|
    ensures var m := FirstFailing(report, flags, attrs, refused, ss[..i]);
      FirstFailing(report, flags, attrs, refused, ss[..i + 1]) ==
        if m.Some? then m else if Fails(report, flags, attrs, refused, ss[i]) then Some(ss[i]) else None
  {
    assert ss[..i + 1][..i] == ss[..i];
  }

  /** Strategy number `i` failing when none before it does makes it the first. */
  lemma FirstFailingAt(report: Report, flags: Flags, attrs: seq<Column>, refused: bool, i: nat)
    requires i < |Strategies| && FirstFailing(report, flags, attrs, refused, Strategies[..i]) == None
    requires Fails(report, flags, attrs, refused, Strategies[i])
    ensures FirstFailing(report, flags, attrs, refused, Strategies) == Some(Strategies[i])
  {
    FirstFailingSpec(report, flags, attrs, refused, Strategies[..i]);
    FirstFailingSpec(report, flags, attrs, refused, Strategies);
    var m := FirstFailing(report, flags, attrs, refused, Strategies);
    assert m != None by {
      assert !(forall j :: 0 <= j < |Strategies| ==> !Fails(report, flags, attrs, refused, Strategies[j]));
    }
    var k :| 0 <= k < |Strategies| && Strategies[k] == m.value && Fails(report, flags, attrs, refused, Strategies[k]) &&
      forall j :: 0 <= j < k ==> !Fails(report, flags, attrs, refused, Strategies[j]);
  }

  // ---------------------------------------------------------------- errors

  /**
   * Which calls fail and how: a missing `Class` column; or, while there is at least one
   * attribute, an active strategy the report does not have, or (under `scaling` on a table
   * with no rows) an active strategy whose sub-report has an attribute. The error is that of
   * the first such strategy, and a ValueError only ever comes from scaling an empty table.
   */
  lemma TransformFailure(t: Table, report: Report, flags: Flags, opts: Settings)
    requires WellFormed(t)
    ensures var r, attrs := Transform(t, report, flags, opts), Attributes(t.columns);
      r.Failure? <==>
        (ClassColumn !in t.columns ||
         (attrs != [] &&
          exists s :: Active(flags, s) &&
            (s !in report || (ScalingRefused(t.index, opts) && exists a :: a in attrs && a in report[s]))))
    ensures ClassColumn !in t.columns ==> Transform(t, report, flags, opts) == Failure(KeyError(ClassColumn))
    ensures var r, attrs, refused := Transform(t, report, flags, opts), Attributes(t.columns), ScalingRefused(t.index, opts);
      ClassColumn in t.columns && r.Failure? ==>
        exists i :: 0 <= i < |Strategies| && Fails(report, flags, attrs, refused, Strategies[i]) &&
          r == Failure(StrategyError(report, attrs, refused, Strategies[i]).value) &&
          forall j :: 0 <= j < i ==> !Fails(report, flags, attrs, refused, Strategies[j])
    ensures Transform(t, report, flags, opts) == Failure(ValueError) ==> opts.how == Scaling && t.index == []
  {
    if ClassColumn in t.columns {
      var attrs, refused := Attributes(t.columns), ScalingRefused(t.index, opts);
      FirstFailingSpec(report, flags, attrs, refused, Strategies);
      if exists s :: Active(flags, s) && (s !in report || (refused && exists a :: a in attrs && a in report[s])) {
        var s :| Active(flags, s) && (s !in report || (refused && exists a :: a in attrs && a in report[s]));
        StrategiesListsAll(s);
        var i :| 0 <= i < |Strategies| && Strategies[i] == s;
        if attrs != [] {
          assert Fails(report, flags, attrs, refused, Strategies[i]);
        }
      }
    }
  }

  /** Outside `scaling` on an empty table the treatment plays no part: only a missing `Class`
      column or an active strategy the report lacks (while there is an attribute) fails. */
  lemma TransformFailureKeys(t: Table, report: Report, flags: Flags, opts: Settings)
    requires WellFormed(t) && !(opts.how == Scaling && t.index == [])
    ensures var r := Transform(t, report, flags, opts);
      (r.Failure? <==>
        (ClassColumn !in t.columns || (Attributes(t.columns) != [] && exists s :: Active(flags, s) && s !in report))) &&
      (r.Failure? ==> r.error.KeyError?)
  {
    TransformFailure(t, report, flags, opts);
  }

  // --------------------------------------------------------------- no-ops

  lemma {:induction false} OverAttributesNoTreatment(t: Table, sub: map<Column, seq<int>>, attrs: seq<Column>, opts: Settings)
    requires WellFormed(t) && (forall a :: a in attrs ==> a in t.columns) && opts.how == NoTreatment
    ensures OverAttributes(t, sub, attrs, opts) == t
  {
    if attrs != [] {
      var n := |attrs| - 1;
      assert forall a :: a in attrs[..n] ==> a in attrs;
      OverAttributesNoTreatment(t, sub, attrs[..n], opts);
    }
  }

  lemma {:induction false} TreatedUnchanged(t: Table, report: Report, flags: Flags, ss: seq<Strategy>,
                                           attrs: seq<Column>, opts: Settings)
    requires WellFormed(t) && forall a :: a in attrs ==> a in t.columns
    requires opts.how == NoTreatment || forall s :: s in ss ==> !Active(flags, s)
    ensures Treated(t, report, flags, ss, attrs, opts) == t
  {
    if ss != [] {
      var n := |ss| - 1;
      assert forall s :: s in ss[..n] ==> s in ss;
      TreatedUnchanged(t, report, flags, ss[..n], attrs, opts);
      if Active(flags, ss[n]) && ss[n] in report {
        OverAttributesNoTreatment(t, report[ss[n]], attrs, opts);
      }
    }
  }

  /** With no strategy switched on, the result is the input table. */
  lemma TransformInactive(t: Table, report: Report, flags: Flags, opts: Settings)
    requires WellFormed(t) && ClassColumn in t.columns
    requires !flags.zScore && !flags.robustZScore && !flags.iqr && !flags.winsorization
    ensures Transform(t, report, flags, opts) == Success(t)
  {
    var attrs := Attributes(t.columns);
    FirstFailingSpec(report, flags, attrs, ScalingRefused(t.index, opts), Strategies);
    forall s ensures !Active(flags, s) {
    }
    TreatedUnchanged(t, report, flags, Strategies, attrs, opts);
  }

  /** With no treatment selected (`None` or an unknown name), a call that succeeds returns the
      input table. */
  lemma TransformNoTreatment(t: Table, report: Report, flags: Flags, opts: Settings)
    requires WellFormed(t) && opts.how == NoTreatment
    ensures Transform(t, report, flags, opts).Success? ==> Transform(t, report, flags, opts) == Success(t)
  {
    if ClassColumn in t.columns {
      TreatedUnchanged(t, report, flags, Strategies, Attributes(t.columns), opts);
    }
  }

  // ------------------------------------------------------------- constant

  /** Strategy `s` is active, the report has it, and its list for column `d` contains `l`. */
  predicate Hits(report: Report, flags: Flags, s: Strategy, d: Column, l: Label) {
    Active(flags, s) && s in report && d in report[s] && l in report[s][d]
  }

  lemma {:induction false} OverAttributesConstant(t: Table, sub: map<Column, seq<int>>, attrs: seq<Column>, opts: Settings)
    requires WellFormed(t) && (forall a :: a in attrs ==> a in t.columns) && opts.how == Constant
    ensures var u := OverAttributes(t, sub, attrs, opts);
      u.index == t.index &&
      forall d, l :: d in t.cells && l in t.cells[d] ==>
        d in u.cells && l in u.cells[d] &&
        u.cells[d][l] == if d in attrs && d in sub && l in sub[d] then opts.constant else t.cells[d][l]
  {
    if attrs != [] {
      var n := |attrs| - 1;
      var a := attrs[n];
      assert attrs == attrs[..n] + [a];
      assert forall d :: d in attrs <==> d in attrs[..n] || d == a;
      OverAttributesConstant(t, sub, attrs[..n], opts);
      if a in sub {
        TreatConstant(OverAttributes(t, sub, attrs[..n], opts), a, sub[a], opts);
      }
    }
  }

  /** Some strategy of `ss` hits cell (`l`, `d`). */
  ghost predicate HitBy(report: Report, flags: Flags, ss: seq<Strategy>, d: Column, l: Label) {
    exists s :: s in ss && Hits(report, flags, s, d, l)
  }

  lemma HitByStep(report: Report, flags: Flags, ss: seq<Strategy>, d: Column, l: Label)
    requires ss != []
    ensures var n := |ss| - 1;
      HitBy(report, flags, ss, d, l) <==> HitBy(report, flags, ss[..n], d, l) || Hits(report, flags, ss[n], d, l)
  {
    var n := |ss| - 1;
    assert ss == ss[..n] + [ss[n]];
    if HitBy(report, flags, ss, d, l) {
      var s :| s in ss && Hits(report, flags, s, d, l);
      if s != ss[n] {
        assert s in ss[..n];
      }
    }
    if HitBy(report, flags, ss[..n], d, l) {
      var s :| s in ss[..n] && Hits(report, flags, s, d, l);
      assert s in ss;
    }
  }

  lemma {:induction false} TreatedConstant(t: Table, report: Report, flags: Flags, ss: seq<Strategy>,
                                          attrs: seq<Column>, opts: Settings)
    requires WellFormed(t) && (forall a :: a in attrs ==> a in t.columns) && opts.how == Constant
    ensures var u := Treated(t, report, flags, ss, attrs, opts);
      u.index == t.index &&
      forall d, l :: d in t.cells && l in t.cells[d] ==>
        d in u.cells && l in u.cells[d] &&
        u.cells[d][l] == if d in attrs && HitBy(report, flags, ss, d, l) then opts.constant else t.cells[d][l]
  {
    if ss != [] {
      var n := |ss| - 1;
      var s := ss[n];
      TreatedConstant(t, report, flags, ss[..n], attrs, opts);
      var w := Treated(t, report, flags, ss[..n], attrs, opts);
      if Active(flags, s) && s in report {
        OverAttributesConstant(w, report[s], attrs, opts);
      }
      forall d, l | d in t.cells && l in t.cells[d]
        ensures Treated(t, report, flags, ss, attrs, opts).cells[d][l] ==
          if d in attrs && HitBy(report, flags, ss, d, l) then opts.constant else t.cells[d][l]
      {
        HitByStep(report, flags, ss, d, l);
      }
    }
  }

  /**
   * `constant`: the cells (label, attribute) that some active strategy flags take the constant;
   * every other cell, the `Class` column and the row index stay as they were. A flagged label
   * that is not in the index is ignored.
   */
  lemma TransformConstant(t: Table, report: Report, flags: Flags, opts: Settings)
    requires WellFormed(t) && opts.how == Constant && Transform(t, report, flags, opts).Success?
    ensures var u := Transform(t, report, flags, opts).value;
      u.index == t.index && u.columns == t.columns &&
      forall d, l :: d in t.cells && l in t.cells[d] ==>
        d in u.cells && l in u.cells[d] &&
        u.cells[d][l] == if d != ClassColumn && exists s :: Hits(report, flags, s, d, l)
                         then opts.constant else t.cells[d][l]
  {
    var attrs := Attributes(t.columns);
    TreatedConstant(t, report, flags, Strategies, attrs, opts);
    forall d, l ensures HitBy(report, flags, Strategies, d, l) <==> exists s :: Hits(report, flags, s, d, l) {
      if exists s :: Hits(report, flags, s, d, l) {
        var s :| Hits(report, flags, s, d, l);
        StrategiesListsAll(s);
      }
    }
  }

  // --------------------------------------------------------------- remove

  /** The labels one strategy's sub-report flags for the attributes `attrs`. */
  ghost function RemovedBy(sub: map<Column, seq<int>>, attrs: seq<Column>): set<Label> {
    set a, l | a in attrs && a in sub && l in sub[a] :: l
  }

  /** The labels flagged by an active strategy of `ss` that the report has, over all of `attrs`. */
  ghost function Removed(report: Report, flags: Flags, ss: seq<Strategy>, attrs: seq<Column>): set<Label> {
    set s, a, l | s in ss && Active(flags, s) && s in report && a in attrs && a in report[s] && l in report[s][a] :: l
  }

  lemma RemovedByStep(sub: map<Column, seq<int>>, attrs: seq<Column>)
    requires attrs != []
    ensures var n := |attrs| - 1;
      RemovedBy(sub, attrs) == RemovedBy(sub, attrs[..n]) + if attrs[n] in sub then Elems(sub[attrs[n]]) else {}
  {
    var n := |attrs| - 1;
    var a := attrs[n];
    assert attrs == attrs[..n] + [a];
    forall l | l in RemovedBy(sub, attrs) ensures l in RemovedBy(sub, attrs[..n]) || (a in sub && l in sub[a]) {
      var a', l' :| a' in attrs && a' in sub && l' in sub[a'] && l' == l;
      if a' != a {
        assert a' in attrs[..n];
      }
    }
    forall l | l in RemovedBy(sub, attrs[..n]) ensures l in RemovedBy(sub, attrs) {
      var a', l' :| a' in attrs[..n] && a' in sub && l' in sub[a'] && l' == l;
      assert a' in attrs;
    }
    forall l | a in sub && l in sub[a] ensures l in RemovedBy(sub, attrs) {
      assert a in attrs;
    }
  }

  lemma RemovedStep(report: Report, flags: Flags, ss: seq<Strategy>, attrs: seq<Column>)
    requires ss != []
    ensures var n := |ss| - 1;
      Removed(report, flags, ss, attrs) == Removed(report, flags, ss[..n], attrs) +
        if Active(flags, ss[n]) && ss[n] in report then RemovedBy(report[ss[n]], attrs) else {}
  {
    var n := |ss| - 1;
    var s := ss[n];
    assert ss == ss[..n] + [s];
    forall l | l in Removed(report, flags, ss, attrs)
      ensures l in Removed(report, flags, ss[..n], attrs) ||
        (Active(flags, s) && s in report && l in RemovedBy(report[s], attrs))
    {
      var s', a', l' :| s' in ss && Active(flags, s') && s' in report && a' in attrs && a' in report[s'] &&
        l' in report[s'][a'] && l' == l;
      if s' != s {
        assert s' in ss[..n];
      }
    }
    forall l | l in Removed(report, flags, ss[..n], attrs) ensures l in Removed(report, flags, ss, attrs) {
      var s', a', l' :| s' in ss[..n] && Active(flags, s') && s' in report && a' in attrs && a' in report[s'] &&
        l' in report[s'][a'] && l' == l;
      assert s' in ss;
    }
    forall l | Active(flags, s) && s in report && l in RemovedBy(report[s], attrs)
      ensures l in Removed(report, flags, ss, attrs)
    {
      var a', l' :| a' in attrs && a' in report[s] && l' in report[s][a'] && l' == l;
      assert s in ss;
    }
  }

  lemma {:induction false} OverAttributesRemove(t: Table, sub: map<Column, seq<int>>, attrs: seq<Column>, opts: Settings)
    requires WellFormed(t) && (forall a :: a in attrs ==> a in t.columns) && opts.how == Remove
    ensures OverAttributes(t, sub, attrs, opts) == DropRows(t, RemovedBy(sub, attrs))
  {
    if attrs == [] {
      assert RemovedBy(sub, attrs) == {};
      DropRowsNone(t);
    } else {
      var n := |attrs| - 1;
      var a := attrs[n];
      assert forall x :: x in attrs[..n] ==> x in attrs;
      OverAttributesRemove(t, sub, attrs[..n], opts);
      RemovedByStep(sub, attrs);
      var before := RemovedBy(sub, attrs[..n]);
      if a in sub {
        TreatRemove(DropRows(t, before), a, sub[a], opts);
        DropRowsTwice(t, before, Elems(sub[a]));
        assert OverAttributes(t, sub, attrs, opts) == Treat(DropRows(t, before), a, sub[a], opts);
      } else {
        assert OverAttributes(t, sub, attrs, opts) == DropRows(t, before);
        assert RemovedBy(sub, attrs) == before;
      }
    }
  }

  lemma {:induction false} TreatedRemove(t: Table, report: Report, flags: Flags, ss: seq<Strategy>,
                                        attrs: seq<Column>, opts: Settings)
    requires WellFormed(t) && (forall a :: a in attrs ==> a in t.columns) && opts.how == Remove
    ensures Treated(t, report, flags, ss, attrs, opts) == DropRows(t, Removed(report, flags, ss, attrs))
  {
    if ss == [] {
      assert Removed(report, flags, ss, attrs) == {};
      DropRowsNone(t);
    } else {
      var n := |ss| - 1;
      var s := ss[n];
      TreatedRemove(t, report, flags, ss[..n], attrs, opts);
      RemovedStep(report, flags, ss, attrs);
      var before := Removed(report, flags, ss[..n], attrs);
      if Active(flags, s) && s in report {
        OverAttributesRemove(DropRows(t, before), report[s], attrs, opts);
        DropRowsTwice(t, before, RemovedBy(report[s], attrs));
        assert Treated(t, report, flags, ss, attrs, opts) == OverAttributes(DropRows(t, before), report[s], attrs, opts);
        assert Removed(report, flags, ss, attrs) == before + RemovedBy(report[s], attrs);
      } else {
        assert Removed(report, flags, ss, attrs) == before;
      }
    }
  }

  /**
   * `remove`: the result is the input without every row whose label some active strategy
   * flags for some attribute; the surviving rows keep their order and their values. Flagged
   * labels that are absent, or already dropped by an earlier pair, are ignored.
   */
  lemma TransformRemove(t: Table, report: Report, flags: Flags, opts: Settings)
    requires WellFormed(t) && opts.how == Remove && Transform(t, report, flags, opts).Success?
    ensures var u, gone := Transform(t, report, flags, opts).value, Removed(report, flags, Strategies, Attributes(t.columns));
      u == DropRows(t, gone) && u.index == Keep(t.index, gone)
  {
    TreatedRemove(t, report, flags, Strategies, Attributes(t.columns), opts);
  }

  /** `remove` with the same report applied to its own result changes nothing more. */
  lemma TransformRemoveIdempotent(t: Table, report: Report, flags: Flags, opts: Settings)
    requires WellFormed(t) && opts.how == Remove && Transform(t, report, flags, opts).Success?
    ensures var u := Transform(t, report, flags, opts).value;
      Transform(u, report, flags, opts) == Success(u)
  {
    var u := Transform(t, report, flags, opts).value;
    var gone := Removed(report, flags, Strategies, Attributes(t.columns));
    TransformRemove(t, report, flags, opts);
    TreatedRemove(u, report, flags, Strategies, Attributes(u.columns), opts);
    DropRowsTwice(t, gone, gone);
    assert gone + gone == gone;
  }

  // ---------------------------------------------------- whole-column maps

  lemma {:induction false} OverAttributesRewrite(t: Table, sub: map<Column, seq<int>>, attrs: seq<Column>,
                                                opts: Settings, d: Column)
    requires WellFormed(t) && (forall a :: a in attrs ==> a in t.columns) && Distinct(attrs)
    requires RewritesColumn(opts.how) && d in t.columns
    ensures var u := OverAttributes(t, sub, attrs, opts);
      u.index == t.index &&
      ColumnValues(u, d) == if d in attrs && d in sub then Rewrite(opts.how, opts.num, ColumnValues(t, d))
                            else ColumnValues(t, d)
  {
    if attrs != [] {
      var n := |attrs| - 1;
      var a := attrs[n];
      assert attrs == attrs[..n] + [a];
      assert forall x :: x in attrs <==> x in attrs[..n] || x == a;
      OverAttributesRewrite(t, sub, attrs[..n], opts, d);
      var u := OverAttributes(t, sub, attrs[..n], opts);
      if a in sub {
        TreatRewrite(u, a, sub[a], opts, d);
        if d == a {
          OverAttributesRewrite(t, sub, attrs[..n], opts, a);
          assert a !in attrs[..n];
        }
      }
    }
  }

  /** How many active strategies the report has whose sub-report has attribute `d` as a key:
      the number of times a whole-column treatment runs on `d`. */
  function Uses(report: Report, flags: Flags, ss: seq<Strategy>, attrs: seq<Column>, d: Column): nat {
    if ss == [] then 0
    else
      var n := |ss| - 1;
      var s := ss[n];
      Uses(report, flags, ss[..n], attrs, d) +
        if Active(flags, s) && s in report && d in attrs && d in report[s] then 1 else 0
  }

  lemma {:induction false} TreatedRewrite(t: Table, report: Report, flags: Flags, ss: seq<Strategy>,
                                         attrs: seq<Column>, opts: Settings, d: Column)
    requires WellFormed(t) && (forall a :: a in attrs ==> a in t.columns) && Distinct(attrs)
    requires RewritesColumn(opts.how) && d in t.columns
    ensures var u := Treated(t, report, flags, ss, attrs, opts);
      u.index == t.index &&
      ColumnValues(u, d) == RewriteTimes(opts.how, opts.num, Uses(report, flags, ss, attrs, d), ColumnValues(t, d))
  {
    if ss != [] {
      var n := |ss| - 1;
      TreatedRewrite(t, report, flags, ss[..n], attrs, opts, d);
      TreatedRewriteStep(t, report, flags, ss, attrs, opts, d);
    }
  }

  lemma TreatedRewriteStep(t: Table, report: Report, flags: Flags, ss: seq<Strategy>,
                           attrs: seq<Column>, opts: Settings, d: Column)
    requires WellFormed(t) && (forall a :: a in attrs ==> a in t.columns) && Distinct(attrs)
    requires RewritesColumn(opts.how) && d in t.columns && ss != []
    requires var n := |ss| - 1;
      var w := Treated(t, report, flags, ss[..n], attrs, opts);
      w.index == t.index &&
      ColumnValues(w, d) == RewriteTimes(opts.how, opts.num, Uses(report, flags, ss[..n], attrs, d), ColumnValues(t, d))
    ensures var u := Treated(t, report, flags, ss, attrs, opts);
      u.index == t.index &&
      ColumnValues(u, d) == RewriteTimes(opts.how, opts.num, Uses(report, flags, ss, attrs, d), ColumnValues(t, d))
  {
    var n := |ss| - 1;
    var s := ss[n];
    var w, k := Treated(t, report, flags, ss[..n], attrs, opts), Uses(report, flags, ss[..n], attrs, d);
    var u, j := Treated(t, report, flags, ss, attrs, opts), Uses(report, flags, ss, attrs, d);
    if Active(flags, s) && s in report {
      RewriteStep(w, report[s], attrs, opts, d, k, ColumnValues(t, d), u, j);
    }
  }

  /** One more strategy's inner loop adds one rewrite of `d` when its sub-report has `d`. */
  lemma RewriteStep(w: Table, sub: map<Column, seq<int>>, attrs: seq<Column>, opts: Settings, d: Column,
                    k: nat, xs: seq<real>, u: Table, j: nat)
    requires WellFormed(w) && (forall a :: a in attrs ==> a in w.columns) && Distinct(attrs)
    requires RewritesColumn(opts.how) && d in w.columns
    requires ColumnValues(w, d) == RewriteTimes(opts.how, opts.num, k, xs)
    requires u == OverAttributes(w, sub, attrs, opts)
    requires j == k + if d in attrs && d in sub then 1 else 0
    ensures u.index == w.index && d in u.columns && ColumnValues(u, d) == RewriteTimes(opts.how, opts.num, j, xs)
  {
    OverAttributesRewrite(w, sub, attrs, opts, d);
    RewriteTimesNext(opts.how, opts.num, k, xs);
  }

  lemma RewriteTimesNext(how: Treatment, num: Numerics, k: nat, xs: seq<real>)
    requires RewritesColumn(how)
    ensures RewriteTimes(how, num, k + 1, xs) == Rewrite(how, num, RewriteTimes(how, num, k, xs))
  {
  }

  /**
   * `log`, `sqrt`, `cbrt`, `scaling`: the index stays, and each column is rewritten as a whole,
   * once for every active strategy whose sub-report has it as a key, whatever its list holds;
   * `Class` is rewritten zero times.
   */
  lemma TransformRewrite(t: Table, report: Report, flags: Flags, opts: Settings, d: Column)
    requires WellFormed(t) && RewritesColumn(opts.how) && d in t.columns
    requires Transform(t, report, flags, opts).Success?
    ensures var u, attrs := Transform(t, report, flags, opts).value, Attributes(t.columns);
      u.index == t.index && d in u.columns &&
      ColumnValues(u, d) == RewriteTimes(opts.how, opts.num, Uses(report, flags, Strategies, attrs, d), ColumnValues(t, d))
    ensures d == ClassColumn ==> Uses(report, flags, Strategies, Attributes(t.columns), d) == 0
  {
    var attrs := Attributes(t.columns);
    TreatedRewrite(t, report, flags, Strategies, attrs, opts, d);
    if d == ClassColumn {
      UsesUnkeyed(report, flags, Strategies, attrs, d);
    }
  }

  lemma {:induction false} UsesUnkeyed(report: Report, flags: Flags, ss: seq<Strategy>, attrs: seq<Column>, d: Column)
    requires d !in attrs
    ensures Uses(report, flags, ss, attrs, d) == 0
  {
    if ss != [] {
      UsesUnkeyed(report, flags, ss[..|ss| - 1], attrs, d);
    }
  }

  /** Under log, sqrt or cbrt, every value of a treated column that was not positive ends as 0,
      and a value of an untreated column stays. */
  lemma TransformElementwise(t: Table, report: Report, flags: Flags, opts: Settings, d: Column, i: nat)
    requires WellFormed(t) && IsElementwise(opts.how) && d in t.columns && i < |t.index|
    requires Transform(t, report, flags, opts).Success?
    ensures var u, attrs := Transform(t, report, flags, opts).value, Attributes(t.columns);
      var k, x := Uses(report, flags, Strategies, attrs, d), ColumnValues(t, d)[i];
      d in u.columns && i < |u.index| &&
      ColumnValues(u, d)[i] == Iterate(Elementwise(opts.how, opts.num), k, x) &&
      (k >= 1 && x <= 0.0 ==> ColumnValues(u, d)[i] == 0.0) &&
      (k == 0 ==> ColumnValues(u, d)[i] == x)
  {
    var attrs := Attributes(t.columns);
    var k, x := Uses(report, flags, Strategies, attrs, d), ColumnValues(t, d)[i];
    TransformRewrite(t, report, flags, opts, d);
    RewriteTimesPointwise(opts.how, opts.num, k, ColumnValues(t, d));
    if k >= 1 && x <= 0.0 {
      IterateNonPositive(Elementwise(opts.how, opts.num), k, x);
    }
  }

  // ------------------------------------------------------ untouched columns

  /** Attribute `d` is a key of the sub-report of some active strategy the report has. */
  ghost predicate Keyed(report: Report, flags: Flags, attrs: seq<Column>, d: Column) {
    d in attrs && exists s :: Active(flags, s) && s in report && d in report[s]
  }

  lemma {:induction false} OverAttributesKeeps(t: Table, sub: map<Column, seq<int>>, attrs: seq<Column>,
                                              opts: Settings, d: Column)
    requires WellFormed(t) && (forall a :: a in attrs ==> a in t.columns) && d in t.columns
    requires !(d in attrs && d in sub)
    ensures var u := OverAttributes(t, sub, attrs, opts);
      (forall l :: l in u.index ==> l in t.index) &&
      d in u.cells && d in t.cells &&
      forall l :: l in u.cells[d] ==> l in t.cells[d] && u.cells[d][l] == t.cells[d][l]
  {
    if attrs != [] {
      var n := |attrs| - 1;
      var a := attrs[n];
      assert attrs == attrs[..n] + [a];
      assert forall x :: x in attrs <==> x in attrs[..n] || x == a;
      OverAttributesKeeps(t, sub, attrs[..n], opts, d);
      if a in sub {
        TreatKeeps(OverAttributes(t, sub, attrs[..n], opts), a, sub[a], opts, d);
      }
    }
  }

  lemma {:induction false} TreatedKeeps(t: Table, report: Report, flags: Flags, ss: seq<Strategy>,
                                       attrs: seq<Column>, opts: Settings, d: Column)
    requires WellFormed(t) && (forall a :: a in attrs ==> a in t.columns) && d in t.columns
    requires !Keyed(report, flags, attrs, d)
    ensures var u := Treated(t, report, flags, ss, attrs, opts);
      (forall l :: l in u.index ==> l in t.index) &&
      d in u.cells && d in t.cells &&
      forall l :: l in u.cells[d] ==> l in t.cells[d] && u.cells[d][l] == t.cells[d][l]
  {
    if ss != [] {
      var n := |ss| - 1;
      var s := ss[n];
      TreatedKeeps(t, report, flags, ss[..n], attrs, opts, d);
      if Active(flags, s) && s in report {
        OverAttributesKeeps(Treated(t, report, flags, ss[..n], attrs, opts), report[s], attrs, opts, d);
      }
    }
  }

  /**
   * A column that no active strategy's sub-report has as a key, and the `Class` column always,
   * keeps the value of every row that survives, under every treatment; no row is added.
   */
  lemma TransformUntouched(t: Table, report: Report, flags: Flags, opts: Settings, d: Column)
    requires WellFormed(t) && d in t.columns && Transform(t, report, flags, opts).Success?
    requires d == ClassColumn || !Keyed(report, flags, Attributes(t.columns), d)
    ensures var u := Transform(t, report, flags, opts).value;
      u.columns == t.columns &&
      (forall l :: l in u.index ==> l in t.index) &&
      d in u.cells && d in t.cells &&
      forall l :: l in u.cells[d] ==> l in t.cells[d] && u.cells[d][l] == t.cells[d][l]
  {
    TreatedKeeps(t, report, flags, Strategies, Attributes(t.columns), opts, d);
  }
}
