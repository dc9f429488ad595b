/** The long-form chart data: the wide table unpivoted back into one point
    per cell, carrying the row's date, the column's member name and the cell's
    value as `gross`. */
module Melting {
  import opened Ordering
  import opened Records
  import opened Pivoting

  /** One long-form row: a date, a member name and the cell's value. */
  datatype Point = Point(date: int, name: string, gross: int)

  lemma MulMonotone(a: int, b: int, c: nat)
    requires a <= b
    ensures a * c <= b * c
  {
  }

  lemma MulSign(a: int, b: nat)
    ensures a >= 1 ==> a * b >= b
    ensures a <= -1 ==> a * b + b <= 0
  {
  }

  /** Position `k` of a column-major walk over `rows` rows lies in row
      `k % rows` and column `k / rows`. */
  lemma SplitIndex(k: int, rows: nat, cols: nat)
    requires 0 <= k < rows * cols
    ensures 0 < rows
    ensures 0 <= k / rows < cols && 0 <= k % rows < rows
    ensures k == (k / rows) * rows + k % rows
  {
    if k / rows >= cols {
      MulMonotone(cols, k / rows, rows);
    }
  }

  /** Row `i`, column `j` sits at position `j * rows + i` of the walk. */
  lemma JoinIndex(i: int, j: int, rows: nat, cols: nat)
    requires 0 <= i < rows && 0 <= j < cols
    ensures 0 <= j * rows + i < rows * cols
    ensures (j * rows + i) / rows == j && (j * rows + i) % rows == i
  {
    MulMonotone(j + 1, cols, rows);
    MulMonotone(0, j, rows);
    var k := j * rows + i;
    var q, r := k / rows, k % rows;
    assert k == q * rows + r;
    MulSign(q - j, rows);
    assert (q - j) * rows == q * rows - j * rows;
  }

  /** The point at position `k` of the melt of a shaped pivot. */
  function MeltAt(p: Pivot, k: int): (pt: Point)
    requires Shaped(p) && 0 <= k < |p.dates| * |p.names|
    ensures pt.date in p.dates && pt.name in p.names
  {
    var rows, cols := |p.dates|, |p.names|;
    SplitIndex(k, rows, cols);
    var i, j := k % rows, k / rows;
    Point(p.dates[i], p.names[j], p.cells[i][j])
  }

  /** Every value column is stacked under the previous one: one point per
      cell, each naming a date and a member of the pivot. */
  function Melt(p: Pivot): (s: seq<Point>)
    requires Shaped(p)
    ensures |s| == |p.dates| * |p.names|
    ensures forall k :: 0 <= k < |s| ==> s[k].date in p.dates && s[k].name in p.names
  {
    seq(|p.dates| * |p.names|, k requires 0 <= k < |p.dates| * |p.names| => MeltAt(p, k))
  }

  /** The point for row `i`, column `j` carries that row's date, that
      column's name and that cell's value. */
  lemma MeltCell(p: Pivot, i: int, j: int)
    requires Shaped(p)
    requires 0 <= i < |p.dates| && 0 <= j < |p.names|
    ensures 0 <= j * |p.dates| + i < |Melt(p)|
    ensures Melt(p)[j * |p.dates| + i] == Point(p.dates[i], p.names[j], p.cells[i][j])
  {
    JoinIndex(i, j, |p.dates|, |p.names|);
  }

  /** Every point of the melt is some cell of the pivot. */
  lemma MeltPointIsCell(p: Pivot, k: int)
    requires Shaped(p)
    requires 0 <= k < |Melt(p)|
    ensures exists i, j :: 0 <= i < |p.dates| && 0 <= j < |p.names| &&
              j * |p.dates| + i == k && Melt(p)[k] == Point(p.dates[i], p.names[j], p.cells[i][j])
  {
    var rows := |p.dates|;
    SplitIndex(k, rows, |p.names|);
    var i, j := k % rows, k / rows;
    assert j * rows + i == k;
    assert Melt(p)[k] == Point(p.dates[i], p.names[j], p.cells[i][j]);
  }

  /** The points read back as activity rows (`gross` as the experience). */
  function AsRecords(s: seq<Point>): (t: Table)
    ensures |t| == |s|
    ensures forall k :: 0 <= k < |s| ==> t[k] == Record(s[k].name, s[k].date, s[k].gross)
  {
    seq(|s|, k requires 0 <= k < |s| => Record(s[k].name, s[k].date, s[k].gross))
  }

  /** Only position `j * rows + i` of the melt belongs to the group of row
      `i`, column `j`, because the keys of a well-formed pivot are distinct. */
  lemma MeltGroupIsOneCell(p: Pivot, i: int, j: int)
    requires WellFormed(p)
    requires 0 <= i < |p.dates| && 0 <= j < |p.names|
    ensures GroupSum(AsRecords(Melt(p)), p.dates[i], p.names[j]) == p.cells[i][j]
  {
    var rows := |p.dates|;
    var t := AsRecords(Melt(p));
    IntLessIsOrder();
    StrLessIsOrder();
    SortedIsDistinct(p.dates, IntLess);
    SortedIsDistinct(p.names, StrLess);
    MeltCell(p, i, j);
    var k := j * rows + i;
    forall k' | 0 <= k' < |t| && k' != k
      ensures !InGroup(t[k'], p.dates[i], p.names[j])
    {
      SplitIndex(k', rows, |p.names|);
      var i', j' := k' % rows, k' / rows;
      MeltCell(p, i', j');
      assert k' == j' * rows + i';
      assert i' != i || j' != j;
    }
    GroupSumSingle(t, k, p.dates[i], p.names[j]);
  }

  /** The melted points have exactly the dates of the pivot's rows. */
  lemma MeltKeepsDates(p: Pivot)
    requires WellFormed(p)
    ensures forall d :: HasDate(AsRecords(Melt(p)), d) <==> d in p.dates
  {
    var t := AsRecords(Melt(p));
    forall d
      ensures HasDate(t, d) <==> d in p.dates
    {
      if d in p.dates {
        var i :| 0 <= i < |p.dates| && p.dates[i] == d;
        MeltCell(p, i, 0);
        assert 0 * |p.dates| + i == i;
        assert Melt(p)[i].date == d;
        assert t[i].date == d;
      }
      if HasDate(t, d) {
        var k :| 0 <= k < |t| && t[k].date == d;
        assert Melt(p)[k].date == d;
      }
    }
  }

  /** The melted points have exactly the names of the pivot's columns. */
  lemma MeltKeepsNames(p: Pivot)
    requires WellFormed(p)
    ensures forall n :: HasName(AsRecords(Melt(p)), n) <==> n in p.names
  {
    var t := AsRecords(Melt(p));
    forall n
      ensures HasName(t, n) <==> n in p.names
    {
      if n in p.names {
        var j :| 0 <= j < |p.names| && p.names[j] == n;
        MeltCell(p, 0, j);
        assert t[j * |p.dates|].name == n;
      }
      if HasName(t, n) {
        var k :| 0 <= k < |t| && t[k].name == n;
        assert Melt(p)[k].name == n;
      }
    }
  }

  /** Round trip: pivoting the melted points again gives back the pivot. */
  lemma MeltThenPivot(p: Pivot)
    requires WellFormed(p)
    ensures PivotTable(AsRecords(Melt(p))) == p
  {
    var q := PivotTable(AsRecords(Melt(p)));
    MeltKeepsDates(p);
    MeltKeepsNames(p);
    IntLessIsOrder();
    StrLessIsOrder();
    SortedUnique(q.dates, p.dates, IntLess);
    SortedUnique(q.names, p.names, StrLess);
    forall i, j | 0 <= i < |p.dates| && 0 <= j < |p.names|
      ensures q.cells[i][j] == p.cells[i][j]
    {
      MeltGroupIsOneCell(p, i, j);
    }
    assert forall i :: 0 <= i < |p.dates| ==> q.cells[i] == p.cells[i];
  }
}
