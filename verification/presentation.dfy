/** One rerun of the dashboard script after a widget change: filter, pivot,
    melt, compute the chart's y-axis domain, and draw the chart only when some
    member is chosen. */
module Presentation {
  import opened Ordering
  import opened Records
  import opened Selection
  import opened Pivoting
  import opened Melting

  datatype Option<T> = None | Some(value: T)

  /** The y-axis scale domain `[lo, hi]`. */
  datatype Domain = Domain(lo: int, hi: int)

  /** The margin left below the smallest and above the largest charted value. */
  const Margin: int := 50000

  /** The `gross` column of the chart data. */
  function Grosses(s: seq<Point>): (gs: seq<int>)
    ensures |gs| == |s|
    ensures forall k :: 0 <= k < |s| ==> gs[k] == s[k].gross
  {
    seq(|s|, k requires 0 <= k < |s| => s[k].gross)
  }

  /** The y-axis domain: the smallest value less the margin up to the largest
      value plus the margin. With no points pandas' `min()` and `max()` are
      NaN and there is no usable domain, which is `None` here. */
  function ChartDomain(s: seq<Point>): (d: Option<Domain>)
    ensures d.Some? <==> |s| > 0
    ensures d.Some? ==> exists k :: 0 <= k < |s| && s[k].gross == d.value.lo + Margin
    ensures d.Some? ==> exists k :: 0 <= k < |s| && s[k].gross == d.value.hi - Margin
    ensures d.Some? ==> forall k :: 0 <= k < |s| ==> d.value.lo + Margin <= s[k].gross <= d.value.hi - Margin
  {
    if |s| == 0 then None
    else
      var gs := Grosses(s);
      var lo, hi := MinOf(gs), MaxOf(gs);
      assert forall k :: 0 <= k < |s| ==> gs[k] in gs;
      Some(Domain(lo - Margin, hi + Margin))
  }

  /** Every charted value lies strictly inside the domain, at least the
      margin away from either end. */
  lemma ValuesInsideDomain(s: seq<Point>)
    requires |s| > 0
    ensures ChartDomain(s).Some?
    ensures forall k :: 0 <= k < |s| ==>
              ChartDomain(s).value.lo < s[k].gross < ChartDomain(s).value.hi
  {
  }

  /** The line chart: its long-form data and its y-axis domain. */
  datatype Chart = Chart(series: seq<Point>, domain: Option<Domain>)

  /** What one rerun puts on the page: the wide table, and the chart when one
      is drawn. */
  datatype View = View(table: Pivot, chart: Option<Chart>)

  /** The index level the pivot's rows carry and the value column the melt
      creates. A member whose name is one of them collides with it. */
  const DateLabel: string := "Date"
  const ValueLabel: string := "gross"

  /** Why a rerun stops with an exception. `AmbiguousDate`: sorting by
      `Date` finds both the index level and a column of that name.
      `ValueNameClash`: the melt's value column `gross` is already a column
      label. */
  datatype Failure = AmbiguousDate | ValueNameClash

  /** A rerun either completes, or stops with an exception after writing the
      table when the table had been written already. */
  datatype Outcome = Shown(view: View) | Failed(failure: Failure, written: Option<Pivot>)

  /** The table a rerun should show, stated without the pivot's machinery:
      well formed, a row for each date and a column for each name of some
      row passing the mask, and each cell the chosen member's total
      experience on that date in the loaded table. */
  ghost predicate Shows(p: Pivot, t: Table, members: set<string>, start: int, end: int) {
    && WellFormed(p)
    && (forall d :: d in p.dates <==> SelectedDate(t, members, start, end, d))
    && (forall n :: n in p.names <==> SelectedName(t, members, start, end, n))
    && forall i, j :: 0 <= i < |p.dates| && 0 <= j < |p.names| ==>
         p.cells[i][j] == GroupSum(t, p.dates[i], p.names[j])
  }

  /** Filtering removes whole groups only: a group whose date is in range and
      whose member is chosen keeps its full sum. */
  lemma {:induction false} FilterKeepsShownGroups(t: Table, members: set<string>, start: int, end: int, d: int, n: string)
    requires n in members && start <= d <= end
    ensures GroupSum(Filter(t, members, start, end), d, n) == GroupSum(t, d, n)
  {
    if |t| > 0 {
      var init, last := t[..|t| - 1], t[|t| - 1];
      FilterKeepsShownGroups(init, members, start, end, d, n);
      assert t == init + [last];
      GroupSumAppend(init, [last], d, n);
      GroupSumOne(last, d, n);
      if Selected(last, members, start, end) {
        GroupSumAppend(Filter(init, members, start, end), [last], d, n);
      }
    }
  }

  /** The pivot of the filtered rows is the table the rerun should show. */
  lemma FilteredPivotShows(t: Table, members: set<string>, start: int, end: int)
    ensures Shows(PivotTable(Filter(t, members, start, end)), t, members, start, end)
  {
    var f := Filter(t, members, start, end);
    var p := PivotTable(f);
    FilterKeys(t, members, start, end);
    forall i, j | 0 <= i < |p.dates| && 0 <= j < |p.names|
      ensures p.cells[i][j] == GroupSum(t, p.dates[i], p.names[j])
    {
      assert p.dates[i] in p.dates && p.names[j] in p.names;
      var k :| 0 <= k < |t| && Selected(t[k], members, start, end) && t[k].name == p.names[j];
      var k' :| 0 <= k' < |t| && Selected(t[k'], members, start, end) && t[k'].date == p.dates[i];
      FilterKeepsShownGroups(t, members, start, end, p.dates[i], p.names[j]);
    }
  }

  /** At most one table fits the description: the loaded rows and the widget
      state determine what is shown. */
  lemma ShowsIsUnique(p: Pivot, q: Pivot, t: Table, members: set<string>, start: int, end: int)
    requires Shows(p, t, members, start, end) && Shows(q, t, members, start, end)
    ensures p == q
  {
    IntLessIsOrder();
    StrLessIsOrder();
    assert forall d :: d in p.dates <==> d in q.dates;
    assert forall n :: n in p.names <==> n in q.names;
    SortedUnique(p.dates, q.dates, IntLess);
    SortedUnique(p.names, q.names, StrLess);
    forall i | 0 <= i < |p.dates|
      ensures p.cells[i] == q.cells[i]
    {
      forall j | 0 <= j < |p.names|
        ensures p.cells[i][j] == q.cells[i][j]
      {
        assert p.cells[i][j] == GroupSum(t, p.dates[i], p.names[j]);
        assert q.cells[i][j] == GroupSum(t, q.dates[i], q.names[j]);
      }
    }
  }

  /** The shown columns are chosen members and the shown dates lie in the
      range. */
  lemma ShownKeysAreSelected(p: Pivot, t: Table, members: set<string>, start: int, end: int)
    requires Shows(p, t, members, start, end)
    ensures forall n :: n in p.names ==> n in members
    ensures forall d :: d in p.dates ==> start <= d <= end
  {
    forall n | n in p.names
      ensures n in members
    {
      var k :| 0 <= k < |t| && Selected(t[k], members, start, end) && t[k].name == n;
    }
    forall d | d in p.dates
      ensures start <= d <= end
    {
      var k :| 0 <= k < |t| && Selected(t[k], members, start, end) && t[k].date == d;
    }
  }

  /** The whole recomputation for one widget state: filter, pivot, sort by
      date (which fails on a member named `Date`), write the table, melt
      (which fails on a member named `gross`), and draw the chart only when
      some member is chosen. */
  function Render(t: Table, members: set<string>, start: int, end: int): (r: Outcome)
    ensures r.Failed? <==> SelectedName(t, members, start, end, DateLabel) || SelectedName(t, members, start, end, ValueLabel)
    ensures r.Failed? ==> (r.failure == AmbiguousDate <==> SelectedName(t, members, start, end, DateLabel))
    ensures r.Failed? ==> (r.written.Some? <==> r.failure == ValueNameClash)
    ensures r.Failed? && r.written.Some? ==> Shows(r.written.value, t, members, start, end)
    ensures r.Shown? ==> Shows(r.view.table, t, members, start, end)
    ensures r.Shown? ==> GridTotal(r.view.table.cells) == Total(Filter(t, members, start, end))
    ensures r.Shown? ==> (r.view.chart.Some? <==> members != {})
    ensures r.Shown? && r.view.chart.Some? ==> r.view.chart.value.series == Melt(r.view.table)
    ensures r.Shown? && r.view.chart.Some? ==> r.view.chart.value.domain == ChartDomain(r.view.chart.value.series)
    ensures r.Shown? && r.view.chart.Some? ==> PivotTable(AsRecords(r.view.chart.value.series)) == r.view.table
  {
    var filtered := Filter(t, members, start, end);
    var table := PivotTable(filtered);
    FilteredPivotShows(t, members, start, end);
    Conservation(filtered);
    if DateLabel in table.names then Failed(AmbiguousDate, None)
    else if ValueLabel in table.names then Failed(ValueNameClash, Some(table))
    else
      MeltThenPivot(table);
      var series := Melt(table);
      Shown(View(table, if members != {} then Some(Chart(series, ChartDomain(series))) else None))
  }

  /** No member chosen: an empty table and no chart. */
  lemma NoSelectionShowsNothing(t: Table, start: int, end: int)
    ensures Render(t, {}, start, end) == Shown(View(Pivot([], [], []), None))
  {
    NoMembersKeepsNothing(t, start, end);
    EmptyTablePivot();
  }

  /** A range covering none of the table's dates shows an empty table, and
      with members chosen an empty chart without a usable domain. */
  lemma EmptyRangeShowsEmptyTable(t: Table, members: set<string>, start: int, end: int)
    requires forall k :: 0 <= k < |t| ==> !(start <= t[k].date <= end)
    ensures Render(t, members, start, end) ==
            Shown(View(Pivot([], [], []), if members == {} then None else Some(Chart([], None))))
  {
    var f := Filter(t, members, start, end);
    FilterCounts(t, members, start, end);
    forall x
      ensures multiset(f)[x] == 0
    {
      if x in t {
        var k :| 0 <= k < |t| && t[k] == x;
      }
    }
    EmptyMultisetIsEmptyTable(f);
    EmptyTablePivot();
    assert Melt(Pivot([], [], [])) == [];
  }

  /** Reordering the loaded rows does not change what is shown. */
  lemma RenderPermutation(a: Table, b: Table, members: set<string>, start: int, end: int)
    requires multiset(a) == multiset(b)
    ensures Render(a, members, start, end) == Render(b, members, start, end)
  {
    FilterPermutation(a, b, members, start, end);
    PivotTablePermutation(Filter(a, members, start, end), Filter(b, members, start, end));
  }
}
