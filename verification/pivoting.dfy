/** The reshape stage: experience pivoted by date (rows) and member name
    (columns), summed within each date/name group, missing groups filled with
    0, and the rows then sorted by date. */
module Pivoting {
  import opened Ordering
  import opened Records

  /** A wide table: one row per date, one column per member name, and
      `cells[i][j]` the value at row `dates[i]`, column `names[j]`. */
  datatype Pivot = Pivot(dates: seq<int>, names: seq<string>, cells: seq<seq<int>>)

  /** The matrix has one row per date and one entry per name in each row. */
  predicate Shaped(p: Pivot) {
    && |p.cells| == |p.dates|
    && forall i :: 0 <= i < |p.cells| ==> |p.cells[i]| == |p.names|
  }

  /** The shape of every pivot of a table: rows ascending by date, columns
      ascending by name, no repeated key, and a row key exists exactly when a
      column key does (both come from the same rows). */
  predicate WellFormed(p: Pivot) {
    && Shaped(p)
    && StrictlySorted(p.dates, IntLess)
    && StrictlySorted(p.names, StrLess)
    && (|p.dates| == 0 <==> |p.names| == 0)
  }

  /** The row index: the distinct dates of the table, ascending. */
  function RowKeys(t: Table): (ds: seq<int>)
    ensures StrictlySorted(ds, IntLess)
    ensures forall d :: d in ds <==> HasDate(t, d)
  {
    IntLessIsOrder();
    var ds := SortDistinct(Dates(t), IntLess);
    assert forall d :: d in Dates(t) <==> exists k :: 0 <= k < |t| && t[k].date == d by {
      forall d | d in Dates(t)
        ensures exists k :: 0 <= k < |t| && t[k].date == d
      {
        var k :| 0 <= k < |Dates(t)| && Dates(t)[k] == d;
        assert t[k].date == d;
      }
      forall d | exists k :: 0 <= k < |t| && t[k].date == d
        ensures d in Dates(t)
      {
        var k :| 0 <= k < |t| && t[k].date == d;
        assert Dates(t)[k] == d;
      }
    }
    ds
  }

  /** The column index: the distinct member names of the table, ascending. */
  function ColumnKeys(t: Table): (ns: seq<string>)
    ensures StrictlySorted(ns, StrLess)
    ensures forall n :: n in ns <==> HasName(t, n)
  {
    StrLessIsOrder();
    var ns := SortDistinct(Names(t), StrLess);
    assert forall n :: n in Names(t) <==> exists k :: 0 <= k < |t| && t[k].name == n by {
      forall n | n in Names(t)
        ensures exists k :: 0 <= k < |t| && t[k].name == n
      {
        var k :| 0 <= k < |Names(t)| && Names(t)[k] == n;
        assert t[k].name == n;
      }
      forall n | exists k :: 0 <= k < |t| && t[k].name == n
        ensures n in Names(t)
      {
        var k :| 0 <= k < |t| && t[k].name == n;
        assert Names(t)[k] == n;
      }
    }
    ns
  }

  /** The group-by: one entry per `(date, name)` combination that occurs in the
      table, accumulating the experience of its rows. */
  function Aggregate(t: Table): (m: map<(int, string), int>)
    ensures forall key :: key in m <==> exists k :: 0 <= k < |t| && InGroup(t[k], key.0, key.1)
    ensures forall key :: key in m ==> m[key] == GroupSum(t, key.0, key.1)
  {
    if |t| == 0 then map[]
    else
      var rest := Aggregate(t[1..]);
      var key := (t[0].date, t[0].name);
      assert forall k :: 0 <= k < |t[1..]| ==> t[1..][k] == t[k + 1];
      assert key !in rest ==> GroupSum(t[1..], key.0, key.1) == 0 by {
        if key !in rest {
          GroupSumAbsent(t[1..], key.0, key.1);
        }
      }
      rest[key := Fill(rest, key) + t[0].experience]
  }

  /** `fill_value=0`: a combination with no group reads as 0. */
  function Fill(m: map<(int, string), int>, key: (int, string)): int {
    if key in m then m[key] else 0
  }

  /** Reading the group-by with zero fill gives the reference group sum for
      every date and name, present or not. */
  lemma FilledAggregateIsGroupSum(t: Table)
    ensures forall d, n :: Fill(Aggregate(t), (d, n)) == GroupSum(t, d, n)
  {
    var m := Aggregate(t);
    forall d, n
      ensures Fill(m, (d, n)) == GroupSum(t, d, n)
    {
      if (d, n) !in m {
        GroupSumAbsent(t, d, n);
      }
    }
  }

  /** The pivot table of the filtered rows, rows sorted by date. */
  function PivotTable(t: Table): (p: Pivot)
    ensures WellFormed(p)
    ensures forall d :: d in p.dates <==> HasDate(t, d)
    ensures forall n :: n in p.names <==> HasName(t, n)
    ensures forall i, j :: 0 <= i < |p.dates| && 0 <= j < |p.names| ==>
              p.cells[i][j] == GroupSum(t, p.dates[i], p.names[j])
  {
    var ds := RowKeys(t);
    var ns := ColumnKeys(t);
    var m := Aggregate(t);
    FilledAggregateIsGroupSum(t);
    assert |t| > 0 ==> t[0].date in ds && t[0].name in ns;
    HeadIsElement(ds);
    HeadIsElement(ns);
    Pivot(ds, ns, seq(|ds|, i requires 0 <= i < |ds| =>
                    seq(|ns|, j requires 0 <= j < |ns| => Fill(m, (ds[i], ns[j])))))
  }

  /** A date/name combination no filtered row has is exactly 0. */
  lemma AbsentCombinationIsZero(t: Table, i: int, j: int)
    requires 0 <= i < |PivotTable(t).dates| && 0 <= j < |PivotTable(t).names|
    requires forall k :: 0 <= k < |t| ==> !InGroup(t[k], PivotTable(t).dates[i], PivotTable(t).names[j])
    ensures PivotTable(t).cells[i][j] == 0
  {
    var p := PivotTable(t);
    GroupSumAbsent(t, p.dates[i], p.names[j]);
  }

  /** The empty table pivots to the empty matrix. */
  lemma EmptyTablePivot()
    ensures PivotTable([]) == Pivot([], [], [])
  {
    var p := PivotTable([]);
    HeadIsElement(p.dates);
    HeadIsElement(p.names);
  }

  /** The sum of one matrix row. */
  function RowTotal(row: seq<int>): int {
    if |row| == 0 then 0 else row[0] + RowTotal(row[1..])
  }

  /** The sum of every cell of a matrix. */
  function GridTotal(cells: seq<seq<int>>): int {
    if |cells| == 0 then 0 else RowTotal(cells[0]) + GridTotal(cells[1..])
  }

  /** The sum of the group sums of date `d` over the names `ns`. */
  ghost function SumOverNames(t: Table, d: int, ns: seq<string>): int {
    if |ns| == 0 then 0 else GroupSum(t, d, ns[0]) + SumOverNames(t, d, ns[1..])
  }

  /** The sum of the group sums over every date of `ds` and name of `ns`. */
  ghost function SumOverDates(t: Table, ds: seq<int>, ns: seq<string>): int {
    if |ds| == 0 then 0 else SumOverNames(t, ds[0], ns) + SumOverDates(t, ds[1..], ns)
  }

  lemma {:induction false} RowTotalIsSumOverNames(row: seq<int>, t: Table, d: int, ns: seq<string>)
    requires |row| == |ns|
    requires forall j :: 0 <= j < |ns| ==> row[j] == GroupSum(t, d, ns[j])
    ensures RowTotal(row) == SumOverNames(t, d, ns)
  {
    if |ns| > 0 {
      RowTotalIsSumOverNames(row[1..], t, d, ns[1..]);
    }
  }

  lemma {:induction false} GridTotalIsSumOverDates(cells: seq<seq<int>>, t: Table, ds: seq<int>, ns: seq<string>)
    requires |cells| == |ds|
    requires forall i :: 0 <= i < |ds| ==> |cells[i]| == |ns|
    requires forall i, j :: 0 <= i < |ds| && 0 <= j < |ns| ==> cells[i][j] == GroupSum(t, ds[i], ns[j])
    ensures GridTotal(cells) == SumOverDates(t, ds, ns)
  {
    if |ds| > 0 {
      RowTotalIsSumOverNames(cells[0], t, ds[0], ns);
      GridTotalIsSumOverDates(cells[1..], t, ds[1..], ns);
    }
  }

  /** The first row of `t` contributes to the grid independently of the rest. */
  lemma {:induction false} SumOverNamesSplit(t: Table, d: int, ns: seq<string>)
    requires |t| > 0
    ensures SumOverNames(t, d, ns) == SumOverNames([t[0]], d, ns) + SumOverNames(t[1..], d, ns)
  {
    if |ns| > 0 {
      GroupSumOne(t[0], d, ns[0]);
      SumOverNamesSplit(t, d, ns[1..]);
    }
  }

  lemma {:induction false} SumOverDatesSplit(t: Table, ds: seq<int>, ns: seq<string>)
    requires |t| > 0
    ensures SumOverDates(t, ds, ns) == SumOverDates([t[0]], ds, ns) + SumOverDates(t[1..], ds, ns)
  {
    if |ds| > 0 {
      SumOverNamesSplit(t, ds[0], ns);
      SumOverDatesSplit(t, ds[1..], ns);
    }
  }

  /** Over distinct names, a single row lands in at most one column. */
  lemma {:induction false} SumOverNamesSingle(r: Record, d: int, ns: seq<string>)
    requires Distinct(ns)
    ensures SumOverNames([r], d, ns) == if r.date == d && r.name in ns then r.experience else 0
  {
    if |ns| > 0 {
      GroupSumOne(r, d, ns[0]);
      assert ns == [ns[0]] + ns[1..];
      assert r.name == ns[0] ==> r.name !in ns[1..];
      SumOverNamesSingle(r, d, ns[1..]);
    }
  }

  /** Over distinct dates and names, a single row lands in at most one cell. */
  lemma {:induction false} SumOverDatesSingle(r: Record, ds: seq<int>, ns: seq<string>)
    requires Distinct(ds) && Distinct(ns)
    ensures SumOverDates([r], ds, ns) == if r.date in ds && r.name in ns then r.experience else 0
  {
    if |ds| > 0 {
      assert ds == [ds[0]] + ds[1..];
      assert r.date == ds[0] ==> r.date !in ds[1..];
      SumOverNamesSingle(r, ds[0], ns);
      SumOverDatesSingle(r, ds[1..], ns);
    }
  }

  /** When the keys cover every row, the grid of group sums adds up to the
      table's total experience. */
  lemma {:induction false} SumOverDatesIsTotal(t: Table, ds: seq<int>, ns: seq<string>)
    requires Distinct(ds) && Distinct(ns)
    requires forall k :: 0 <= k < |t| ==> t[k].date in ds && t[k].name in ns
    ensures SumOverDates(t, ds, ns) == Total(t)
  {
    if |t| == 0 {
      SumOverDatesZero(ds, ns);
    } else {
      SumOverDatesSplit(t, ds, ns);
      SumOverDatesSingle(t[0], ds, ns);
      assert forall k :: 0 <= k < |t[1..]| ==> t[1..][k] == t[k + 1];
      SumOverDatesIsTotal(t[1..], ds, ns);
    }
  }

  lemma {:induction false} SumOverDatesZero(ds: seq<int>, ns: seq<string>)
    ensures SumOverDates([], ds, ns) == 0
  {
    if |ds| > 0 {
      SumOverNamesZero(ds[0], ns);
      SumOverDatesZero(ds[1..], ns);
    }
  }

  lemma {:induction false} SumOverNamesZero(d: int, ns: seq<string>)
    ensures SumOverNames([], d, ns) == 0
  {
    if |ns| > 0 {
      SumOverNamesZero(d, ns[1..]);
    }
  }

  /** Conservation: the cells of the pivot add up to the total experience of
      the rows it was built from. */
  lemma Conservation(t: Table)
    ensures GridTotal(PivotTable(t).cells) == Total(t)
  {
    var p := PivotTable(t);
    IntLessIsOrder();
    StrLessIsOrder();
    SortedIsDistinct(p.dates, IntLess);
    SortedIsDistinct(p.names, StrLess);
    GridTotalIsSumOverDates(p.cells, t, p.dates, p.names);
    SumOverDatesIsTotal(t, p.dates, p.names);
  }

  /** Every date and name of `a` is also one of `b` when `b` holds the same
      rows. */
  lemma SameRowsSameKeys(a: Table, b: Table)
    requires multiset(a) <= multiset(b)
    ensures forall d :: HasDate(a, d) ==> HasDate(b, d)
    ensures forall n :: HasName(a, n) ==> HasName(b, n)
  {
    forall k | 0 <= k < |a|
      ensures exists k' :: 0 <= k' < |b| && b[k'] == a[k]
    {
      assert a[k] in multiset(a);
      assert a[k] in b;
    }
  }

  /** Reordering the rows does not change the pivot. */
  lemma PivotTablePermutation(a: Table, b: Table)
    requires multiset(a) == multiset(b)
    ensures PivotTable(a) == PivotTable(b)
  {
    var pa, pb := PivotTable(a), PivotTable(b);
    SameRowsSameKeys(a, b);
    SameRowsSameKeys(b, a);
    assert forall d :: d in pa.dates <==> d in pb.dates;
    assert forall n :: n in pa.names <==> n in pb.names;
    IntLessIsOrder();
    StrLessIsOrder();
    SortedUnique(pa.dates, pb.dates, IntLess);
    SortedUnique(pa.names, pb.names, StrLess);
    forall i, j | 0 <= i < |pa.dates| && 0 <= j < |pa.names|
      ensures pa.cells[i][j] == pb.cells[i][j]
    {
      GroupSumPermutation(a, b, pa.dates[i], pa.names[j]);
    }
    assert forall i :: 0 <= i < |pa.dates| ==> pa.cells[i] == pb.cells[i];
  }
}
