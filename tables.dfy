/**
 * The part of a pandas DataFrame that the outlier detector and treater use:
 * an ordered row index of labels (not necessarily 0..n-1), an ordered list of
 * column names, and for every column a map from row label to its value.
 * `Table` is the value; `Frame` is the mutable object the treater works on.
 */
module Tables {

  type Label = int
  type Column = string

  /** The reserved label column, excluded from every outlier computation. */
  const ClassColumn: Column := "Class"

  datatype Option<T> = None | Some(value: T)

  /** The exceptions the core raises: a dictionary or axis lookup that misses, and
      `MinMaxScaler` refusing a column with no rows. */
  datatype Error = KeyError(key: string) | ValueError

  datatype Result<T> = Success(value: T) | Failure(error: Error)

  ghost predicate Distinct<T>(s: seq<T>) {
    forall i, j :: 0 <= i < j < |s| ==> s[i] != s[j]
  }

  function Elems<T>(s: seq<T>): set<T> {
    set x | x in s
  }

  /** The elements of `s` that are not in `gone`, in their original order. */
  function Keep<T(==, !new)>(s: seq<T>, gone: set<T>): (r: seq<T>)
    ensures forall x :: x in r <==> x in s && x !in gone
    ensures |r| <= |s|
    ensures Distinct(s) ==> Distinct(r)
  {
    if s == [] then []
    else
      var rest := Keep(s[1..], gone);
      assert forall x :: x in s[1..] ==> x in s;
      if s[0] in gone then rest else [s[0]] + rest
  }

  /** Any two elements of `r` occur in `s` in the same order. */
  ghost predicate InOrderOf<T>(r: seq<T>, s: seq<T>) {
    forall i, j :: 0 <= i < j < |r| ==> exists p, q :: 0 <= p < q < |s| && s[p] == r[i] && s[q] == r[j]
  }

  /** `Keep` preserves order: the kept elements are a subsequence of `s`. */
  lemma {:induction false} KeepOrder<T(!new)>(s: seq<T>, gone: set<T>)
    ensures InOrderOf(Keep(s, gone), s)
  {
    if s != [] {
      var r, t, rest := Keep(s, gone), s[1..], Keep(s[1..], gone);
      KeepOrder(t, gone);
      forall i, j | 0 <= i < j < |r|
        ensures exists p, q :: 0 <= p < q < |s| && s[p] == r[i] && s[q] == r[j]
      {
        if s[0] in gone {
          assert r == rest && 0 <= i < j < |rest|;
          var p, q :| 0 <= p < q < |t| && t[p] == rest[i] && t[q] == rest[j];
          assert s[p + 1] == r[i] && s[q + 1] == r[j];
        } else if i == 0 {
          assert r == [s[0]] + rest;
          assert r[j] == rest[j - 1] && rest[j - 1] in t;
          var q :| 0 <= q < |t| && t[q] == rest[j - 1];
          assert s[0] == r[0] && s[q + 1] == r[j];
        } else {
          assert r == [s[0]] + rest && 0 <= i - 1 < j - 1 < |rest|;
          assert r[i] == rest[i - 1] && r[j] == rest[j - 1];
          var p, q :| 0 <= p < q < |t| && t[p] == rest[i - 1] && t[q] == rest[j - 1];
          assert s[p + 1] == r[i] && s[q + 1] == r[j];
        }
      }
    }
  }

  lemma {:induction false} KeepKeep<T(!new)>(s: seq<T>, a: set<T>, b: set<T>)
    ensures Keep(Keep(s, a), b) == Keep(s, a + b)
  {
    if s != [] {
      KeepKeep(s[1..], a, b);
      if s[0] !in a {
        assert Keep(s, a) == [s[0]] + Keep(s[1..], a);
        assert Keep(s, a)[1..] == Keep(s[1..], a);
      }
    }
  }

  lemma {:induction false} KeepNothing<T(!new)>(s: seq<T>, gone: set<T>)
    requires forall x :: x in s ==> x !in gone
    ensures Keep(s, gone) == s
  {
    if s != [] {
      assert forall x :: x in s[1..] ==> x in s;
      KeepNothing(s[1..], gone);
      assert s == [s[0]] + s[1..];
    }
  }

  /** `Index.intersection`: the labels of `index` that occur in `labels`, in index order. */
  function Intersect(index: seq<Label>, labels: seq<int>): (r: seq<Label>)
    ensures forall l :: l in r <==> l in index && l in labels
  {
    Keep(index, Elems(index) - Elems(labels))
  }

  /** The intersection keeps index order. */
  lemma IntersectOrder(index: seq<Label>, labels: seq<int>)
    ensures InOrderOf(Intersect(index, labels), index)
  {
    KeepOrder(index, Elems(index) - Elems(labels));
  }

  /** `df.columns.drop('Class')` once the label column is known to be there:
      the other columns, in order. */
  function Attributes(columns: seq<Column>): (attrs: seq<Column>)
    ensures forall c :: c in attrs <==> c in columns && c != ClassColumn
    ensures Distinct(columns) ==> Distinct(attrs)
    ensures InOrderOf(attrs, columns)
  {
    KeepOrder(columns, {ClassColumn});
    Keep(columns, {ClassColumn})
  }

  /** A table value. Every column must hold one value for every label of the index. */
  datatype Table = Table(index: seq<Label>, columns: seq<Column>, cells: map<Column, map<Label, real>>)

  ghost predicate WellFormed(t: Table) {
    && Distinct(t.index)
    && Distinct(t.columns)
    && (forall c :: c in t.cells <==> c in t.columns)
    && forall c, l :: c in t.cells ==> (l in t.cells[c] <==> l in t.index)
  }

  /** Every column has a cell at every position of the index. */
  lemma CellAt(t: Table, c: Column, i: int)
    requires WellFormed(t) && c in t.columns && 0 <= i < |t.index|
    ensures c in t.cells && t.index[i] in t.cells[c]
  {
    assert c in t.cells;
    var l := t.index[i];
    assert l in t.index;
  }

  /** The column `c` as a Series, in row order. */
  function ColumnValues(t: Table, c: Column): (xs: seq<real>)
    requires WellFormed(t) && c in t.columns
    ensures |xs| == |t.index|
  {
    seq(|t.index|, i requires 0 <= i < |t.index| => CellAt(t, c, i); t.cells[c][t.index[i]])
  }

  /** The column built from `vals` read in the order of `index`. */
  function ColumnMap(index: seq<Label>, vals: seq<real>): (m: map<Label, real>)
    requires Distinct(index) && |vals| == |index|
    ensures m.Keys == Elems(index)
    ensures forall i :: 0 <= i < |index| ==> m[index[i]] == vals[i]
  {
    if index == [] then map[]
    else
      var n := |index| - 1;
      var m := ColumnMap(index[..n], vals[..n])[index[n] := vals[n]];
      assert forall i :: 0 <= i < n ==> index[..n][i] == index[i] && index[i] != index[n];
      assert Elems(index) == Elems(index[..n]) + {index[n]} by {
        assert index == index[..n] + [index[n]];
      }
      m
  }

  /** `df[c] = vals`: the column is replaced, position by position. */
  function WithColumn(t: Table, c: Column, vals: seq<real>): (r: Table)
    requires WellFormed(t) && c in t.columns && |vals| == |t.index|
    ensures WellFormed(r) && r.index == t.index && r.columns == t.columns
    ensures ColumnValues(r, c) == vals
    ensures forall d :: d in t.cells && d != c ==> r.cells[d] == t.cells[d]
  {
    var r := Table(t.index, t.columns, t.cells[c := ColumnMap(t.index, vals)]);
    assert forall i :: 0 <= i < |t.index| ==> ColumnValues(r, c)[i] == vals[i];
    r
  }

  /** `df.loc[labels, c] = v`: only the named cells of column `c` change. */
  function WithCells(t: Table, c: Column, labels: set<Label>, v: real): (r: Table)
    requires WellFormed(t) && c in t.columns
    ensures WellFormed(r) && r.index == t.index && r.columns == t.columns
    ensures forall d, l :: d in t.cells && l in t.cells[d] ==>
      d in r.cells && l in r.cells[d] &&
      r.cells[d][l] == if d == c && l in labels then v else t.cells[d][l]
  {
    var col := map l | l in t.cells[c] :: if l in labels then v else t.cells[c][l];
    assert forall l :: l in col <==> l in t.cells[c];
    Table(t.index, t.columns, t.cells[c := col])
  }

  /** `df.drop(labels)`: the rows carrying these labels disappear; the other rows
      keep their order and their values. */
  function DropRows(t: Table, gone: set<Label>): (r: Table)
    requires WellFormed(t)
    ensures WellFormed(r) && r.columns == t.columns
    ensures r.index == Keep(t.index, gone)
    ensures forall c, l :: c in r.cells && l in r.cells[c] ==> c in t.cells && l in t.cells[c] && r.cells[c][l] == t.cells[c][l]
  {
    Table(Keep(t.index, gone), t.columns, map c | c in t.cells :: Without(t.cells[c], gone))
  }

  function Without(m: map<Label, real>, gone: set<Label>): (r: map<Label, real>)
    ensures r.Keys == m.Keys - gone
  {
    map l | l in m && l !in gone :: m[l]
  }

  lemma DropRowsTwice(t: Table, a: set<Label>, b: set<Label>)
    requires WellFormed(t)
    ensures DropRows(DropRows(t, a), b) == DropRows(t, a + b)
  {
    var w := DropRows(t, a);
    var u, v := DropRows(w, b), DropRows(t, a + b);
    KeepKeep(t.index, a, b);
    forall c | c in u.cells ensures u.cells[c] == v.cells[c] {
      WithoutTwice(t.cells[c], a, b);
    }
  }

  lemma WithoutTwice(m: map<Label, real>, a: set<Label>, b: set<Label>)
    ensures Without(Without(m, a), b) == Without(m, a + b)
  {
  }

  /** Dropping no label gives the table back. */
  lemma DropRowsNone(t: Table)
    requires WellFormed(t)
    ensures DropRows(t, {}) == t
  {
    KeepNothing(t.index, {});
    WithoutNone(t.cells);
  }

  lemma WithoutNone(cells: map<Column, map<Label, real>>)
    ensures (map c | c in cells :: Without(cells[c], {})) == cells
  {
    forall c | c in cells ensures Without(cells[c], {}) == cells[c] {
    }
  }

  /** Labels that are not in the table change nothing when dropped. */
  lemma DropRowsOutside(t: Table, gone: set<Label>, extra: set<Label>)
    requires WellFormed(t)
    requires forall l :: l in extra ==> l !in t.index
    ensures DropRows(t, gone + extra) == DropRows(t, gone)
  {
    forall l | l in Keep(t.index, gone) ensures l !in extra {
      assert l in t.index;
    }
    KeepNothing(Keep(t.index, gone), extra);
    KeepKeep(t.index, gone, extra);
    forall c | c in t.cells ensures Without(t.cells[c], gone + extra) == Without(t.cells[c], gone) {
      WithoutOutside(t.cells[c], gone, extra);
    }
  }

  lemma WithoutOutside(m: map<Label, real>, gone: set<Label>, extra: set<Label>)
    requires forall l :: l in extra ==> l !in m
    ensures Without(m, gone + extra) == Without(m, gone)
  {
    forall l | l in m ensures l in gone + extra <==> l in gone {
      assert l !in extra;
    }
    assert m.Keys - (gone + extra) == m.Keys - gone;
  }

  /**
   * The working DataFrame of the treater. Its fields are the table itself; the
   * methods are the pandas operations the treater performs on it.
   */
  class Frame {
    var index: seq<Label>
    var columns: seq<Column>
    var cells: map<Column, map<Label, real>>

    function Value(): Table
      reads this
    {
      Table(index, columns, cells)
    }

    ghost predicate Valid()
      reads this
    {
      WellFormed(Value())
    }

    constructor FromTable(t: Table)
      requires WellFormed(t)
      ensures Valid() && Value() == t
    {
      index, columns, cells := t.index, t.columns, t.cells;
    }

    /** `df.copy()`: a new, independent frame with the same contents. */
    method Copy() returns (f: Frame)
      requires Valid()
      ensures fresh(f) && f.Valid() && f.Value() == Value()
    {
      f := new Frame.FromTable(Value());
    }

    /** `df[c]`, read in row order. */
    function Column(c: Column): (xs: seq<real>)
      reads this
      requires Valid() && c in columns
      ensures xs == ColumnValues(Value(), c)
    {
      ColumnValues(Value(), c)
    }

    /** `df[c] = vals`. */
    method AssignColumn(c: Column, vals: seq<real>)
      requires Valid() && c in columns && |vals| == |index|
      modifies this
      ensures Valid() && Value() == WithColumn(old(Value()), c, vals)
    {
      var r := WithColumn(Value(), c, vals);
      index, columns, cells := r.index, r.columns, r.cells;
    }

    /** `df.loc[labels, c] = v`; every label must be in the index. */
    method AssignCells(labels: seq<Label>, c: Column, v: real)
      requires Valid() && c in columns
      requires forall l :: l in labels ==> l in index
      modifies this
      ensures Valid() && Value() == WithCells(old(Value()), c, Elems(labels), v)
    {
      var r := WithCells(Value(), c, Elems(labels), v);
      index, columns, cells := r.index, r.columns, r.cells;
    }

    /** `df.drop(labels)`: a new frame; every label must be in the index. */
    method Drop(labels: seq<Label>) returns (f: Frame)
      requires Valid()
      requires forall l :: l in labels ==> l in index
      ensures fresh(f) && f.Valid() && f.Value() == DropRows(Value(), Elems(labels))
    {
      f := new Frame.FromTable(DropRows(Value(), Elems(labels)));
    }
  }
}
