/** A worked example, checked against the model: two members over two
    weeks, and the two member names the script cannot show. */
module Scenarios {
  import opened Ordering
  import opened Records
  import opened Selection
  import opened Pivoting
  import opened Presentation

  function ScenarioTable(): Table {
    [Record("A", 0, 100), Record("A", 0, 50), Record("B", 7, 200)]
  }

  lemma ScenarioDates()
    ensures PivotTable(ScenarioTable()).dates == [0, 7]
  {
    var t := ScenarioTable();
    var ds := PivotTable(t).dates;
    forall d
      ensures d in ds <==> d in [0, 7]
    {
      assert HasDate(t, d) <==> d == t[0].date || d == t[1].date || d == t[2].date;
    }
    IntLessIsOrder();
    SortedUnique(ds, [0, 7], IntLess);
  }

  lemma ScenarioNames()
    ensures PivotTable(ScenarioTable()).names == ["A", "B"]
  {
    var t := ScenarioTable();
    var ns := PivotTable(t).names;
    forall n
      ensures n in ns <==> n in ["A", "B"]
    {
      assert HasName(t, n) <==> n == t[0].name || n == t[1].name || n == t[2].name;
    }
    assert StrLess("A", "B");
    StrLessIsOrder();
    SortedUnique(ns, ["A", "B"], StrLess);
  }

  lemma ScenarioSums()
    ensures GroupSum(ScenarioTable(), 0, "A") == 150
    ensures GroupSum(ScenarioTable(), 0, "B") == 0
    ensures GroupSum(ScenarioTable(), 7, "A") == 0
    ensures GroupSum(ScenarioTable(), 7, "B") == 200
  {
    var t := ScenarioTable();
    assert t[1..] == [Record("A", 0, 50), Record("B", 7, 200)];
    assert t[1..][1..] == [Record("B", 7, 200)];
    assert t[1..][1..][1..] == [];
  }

  lemma ScenarioFilter()
    ensures Filter(ScenarioTable(), {"A", "B"}, 0, 7) == ScenarioTable()
  {
    var t := ScenarioTable();
    assert forall k :: 0 <= k < |t| ==> Selected(t[k], {"A", "B"}, 0, 7);
    FilterKeepsEverySelectedTable(t, {"A", "B"}, 0, 7);
  }

  lemma ScenarioPivot()
    ensures PivotTable(ScenarioTable()) == Pivot([0, 7], ["A", "B"], [[150, 0], [0, 200]])
  {
    var p := PivotTable(ScenarioTable());
    ScenarioDates();
    ScenarioNames();
    ScenarioSums();
    var c0, c1 := p.cells[0], p.cells[1];
    assert c0[0] == 150 && c0[1] == 0;
    assert c1[0] == 0 && c1[1] == 200;
    assert c0 == [150, 0] && c1 == [0, 200];
    assert p.cells == [c0, c1];
  }

  /** Two records of member A on day 0 and one of member B on day 7, both
      members chosen over days 0..7: A's records are summed, and the missing
      combinations read 0. */
  lemma TwoMembersOverTwoWeeks()
    ensures Render(ScenarioTable(), {"A", "B"}, 0, 7).Shown?
    ensures Render(ScenarioTable(), {"A", "B"}, 0, 7).view.table
            == Pivot([0, 7], ["A", "B"], [[150, 0], [0, 200]])
  {
    ScenarioFilter();
    ScenarioPivot();
    assert !("Date" in ["A", "B"]) && !("gross" in ["A", "B"]);
  }

  /** A chosen member named `Date` with a row in range stops the rerun at
      the sort, before anything is written. */
  lemma MemberNamedDateFails()
    ensures Render([Record("Date", 0, 5)], {"Date"}, 0, 0) == Failed(AmbiguousDate, None)
  {
    var t := [Record("Date", 0, 5)];
    assert Selected(t[0], {"Date"}, 0, 0) && t[0].name == DateLabel;
  }

  /** A chosen member named `gross` with a row in range stops the rerun at
      the melt, after the table has been written. */
  lemma MemberNamedGrossFails()
    ensures Render([Record("gross", 0, 5)], {"gross"}, 0, 0).Failed?
    ensures Render([Record("gross", 0, 5)], {"gross"}, 0, 0).failure == ValueNameClash
    ensures Render([Record("gross", 0, 5)], {"gross"}, 0, 0).written.Some?
  {
    var t := [Record("gross", 0, 5)];
    assert Selected(t[0], {"gross"}, 0, 0) && t[0].name == ValueLabel;
    assert !SelectedName(t, {"gross"}, 0, 0, DateLabel) by {
      assert forall k :: 0 <= k < |t| ==> t[k].name == "gross";
      assert "gross" != DateLabel;
    }
  }
}
