/** The filter stage: keep the rows of the chosen members whose date lies in
    the slider's range. */
module Selection {
  import opened Ordering
  import opened Records

  /** The boolean mask: the name is one of the chosen members and the date is
      between `start` and `end`, both ends included (`Series.between`). */
  predicate Selected(r: Record, members: set<string>, start: int, end: int) {
    r.name in members && start <= r.date <= end
  }

  /** The positions, in ascending order, at which the mask is true. */
  function KeptPositions(t: Table, members: set<string>, start: int, end: int): (ps: seq<int>)
    ensures forall i, j :: 0 <= i < j < |ps| ==> ps[i] < ps[j]
    ensures forall i :: 0 <= i < |ps| ==> 0 <= ps[i] < |t|
    ensures forall k :: 0 <= k < |t| ==> (k in ps <==> Selected(t[k], members, start, end))
  {
    if |t| == 0 then []
    else
      var init := KeptPositions(t[..|t| - 1], members, start, end);
      if Selected(t[|t| - 1], members, start, end) then init + [|t| - 1] else init
  }

  /** Boolean indexing `df[mask]`: the rows the mask keeps, in table order. */
  function Filter(t: Table, members: set<string>, start: int, end: int): (r: Table)
    ensures forall x :: x in r ==> Selected(x, members, start, end)
  {
    if |t| == 0 then []
    else
      var init := Filter(t[..|t| - 1], members, start, end);
      var last := t[|t| - 1];
      if Selected(last, members, start, end) then init + [last] else init
  }

  /** Each row passing the mask is kept as many times as it occurs in the
      input, and no other row is kept. */
  lemma {:induction false} FilterCounts(t: Table, members: set<string>, start: int, end: int)
    ensures forall x :: multiset(Filter(t, members, start, end))[x] ==
              if Selected(x, members, start, end) then multiset(t)[x] else 0
  {
    if |t| > 0 {
      var last := t[|t| - 1];
      FilterCounts(t[..|t| - 1], members, start, end);
      assert t == t[..|t| - 1] + [last];
    }
  }

  /** The kept rows are exactly the rows at the kept positions, in order, so
      the filtered table is an order-preserving subsequence of the input. */
  lemma {:induction false} FilterIsKeptRowsInOrder(t: Table, members: set<string>, start: int, end: int)
    ensures |Filter(t, members, start, end)| == |KeptPositions(t, members, start, end)|
    ensures forall i :: 0 <= i < |Filter(t, members, start, end)| ==>
              Filter(t, members, start, end)[i] == t[KeptPositions(t, members, start, end)[i]]
  {
    if |t| > 0 {
      var init := t[..|t| - 1];
      var last := t[|t| - 1];
      var f, ps := Filter(t, members, start, end), KeptPositions(t, members, start, end);
      var fi, pi := Filter(init, members, start, end), KeptPositions(init, members, start, end);
      FilterIsKeptRowsInOrder(init, members, start, end);
      assert forall i :: 0 <= i < |fi| ==> fi[i] == t[pi[i]];
      if Selected(last, members, start, end) {
        assert f == fi + [last];
        assert ps == pi + [|t| - 1];
      } else {
        assert f == fi;
        assert ps == pi;
      }
    }
  }

  /** Some row of `t` passing the mask is dated `d`. */
  predicate SelectedDate(t: Table, members: set<string>, start: int, end: int, d: int) {
    exists k :: 0 <= k < |t| && Selected(t[k], members, start, end) && t[k].date == d
  }

  /** Some row of `t` passing the mask belongs to member `n`. */
  predicate SelectedName(t: Table, members: set<string>, start: int, end: int, n: string) {
    exists k :: 0 <= k < |t| && Selected(t[k], members, start, end) && t[k].name == n
  }

  /** Every row of the input that passes the mask is kept. */
  lemma FilterComplete(t: Table, members: set<string>, start: int, end: int)
    ensures forall k :: 0 <= k < |t| && Selected(t[k], members, start, end) ==> t[k] in Filter(t, members, start, end)
  {
    forall k | 0 <= k < |t| && Selected(t[k], members, start, end)
      ensures t[k] in Filter(t, members, start, end)
    {
      FilterCounts(t, members, start, end);
      assert t[k] in multiset(t);
    }
  }

  /** The filtered rows carry exactly the dates and the names of the input
      rows that pass the mask. */
  lemma FilterKeys(t: Table, members: set<string>, start: int, end: int)
    ensures forall d :: HasDate(Filter(t, members, start, end), d) <==> SelectedDate(t, members, start, end, d)
    ensures forall n :: HasName(Filter(t, members, start, end), n) <==> SelectedName(t, members, start, end, n)
  {
    var f := Filter(t, members, start, end);
    FilterCounts(t, members, start, end);
    FilterComplete(t, members, start, end);
    forall k | 0 <= k < |f|
      ensures exists k' :: 0 <= k' < |t| && t[k'] == f[k]
    {
      assert f[k] in multiset(f);
      assert f[k] in t;
    }
    forall k | 0 <= k < |t| && Selected(t[k], members, start, end)
      ensures exists k' :: 0 <= k' < |f| && f[k'] == t[k]
    {
      assert t[k] in f;
    }
  }

  lemma EmptyMultisetIsEmptyTable(r: Table)
    requires forall x :: multiset(r)[x] == 0
    ensures r == []
  {
    assert multiset(r) == multiset{};
    assert |r| == |multiset(r)|;
  }

  /** No member chosen: nothing is kept. */
  lemma NoMembersKeepsNothing(t: Table, start: int, end: int)
    ensures Filter(t, {}, start, end) == []
  {
    FilterCounts(t, {}, start, end);
    EmptyMultisetIsEmptyTable(Filter(t, {}, start, end));
  }

  /** A range whose start lies after its end keeps nothing. */
  lemma InvertedRangeKeepsNothing(t: Table, members: set<string>, start: int, end: int)
    requires end < start
    ensures Filter(t, members, start, end) == []
  {
    FilterCounts(t, members, start, end);
    EmptyMultisetIsEmptyTable(Filter(t, members, start, end));
  }

  /** When every row passes the mask the table comes back unchanged. */
  lemma {:induction false} FilterKeepsEverySelectedTable(t: Table, members: set<string>, start: int, end: int)
    requires forall k :: 0 <= k < |t| ==> Selected(t[k], members, start, end)
    ensures Filter(t, members, start, end) == t
  {
    if |t| > 0 {
      FilterKeepsEverySelectedTable(t[..|t| - 1], members, start, end);
      assert t == t[..|t| - 1] + [t[|t| - 1]];
    }
  }

  /** The slider starts at the table's earliest and latest dates, so with
      every member chosen the initial view keeps the whole table. */
  lemma SliderDefaultsKeepAll(t: Table, members: set<string>)
    requires |t| > 0
    requires forall k :: 0 <= k < |t| ==> t[k].name in members
    ensures Filter(t, members, MinOf(Dates(t)), MaxOf(Dates(t))) == t
  {
    var ds := Dates(t);
    forall k | 0 <= k < |t|
      ensures Selected(t[k], members, MinOf(ds), MaxOf(ds))
    {
      assert ds[k] in ds;
    }
    FilterKeepsEverySelectedTable(t, members, MinOf(ds), MaxOf(ds));
  }

  /** Reordering the input reorders the kept rows and nothing else. */
  lemma FilterPermutation(a: Table, b: Table, members: set<string>, start: int, end: int)
    requires multiset(a) == multiset(b)
    ensures multiset(Filter(a, members, start, end)) == multiset(Filter(b, members, start, end))
  {
    FilterCounts(a, members, start, end);
    FilterCounts(b, members, start, end);
  }
}
