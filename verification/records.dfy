/** The activity table after loading: one record per CSV row, with the date
    already parsed (as a day ordinal) and the experience as an integer. The
    reference sums the pivot's contracts are stated against live here. */
module Records {

  datatype Record = Record(name: string, date: int, experience: int)

  type Table = seq<Record>

  /** The `Date` column. */
  function Dates(t: Table): (ds: seq<int>)
    ensures |ds| == |t|
    ensures forall k :: 0 <= k < |t| ==> ds[k] == t[k].date
  {
    seq(|t|, k requires 0 <= k < |t| => t[k].date)
  }

  /** The `Name` column. */
  function Names(t: Table): (ns: seq<string>)
    ensures |ns| == |t|
    ensures forall k :: 0 <= k < |t| ==> ns[k] == t[k].name
  {
    seq(|t|, k requires 0 <= k < |t| => t[k].name)
  }

  /** Some row of `t` is dated `d`. */
  predicate HasDate(t: Table, d: int) {
    exists k :: 0 <= k < |t| && t[k].date == d
  }

  /** Some row of `t` belongs to member `n`. */
  predicate HasName(t: Table, n: string) {
    exists k :: 0 <= k < |t| && t[k].name == n
  }

  /** Whether a row belongs to the `(d, n)` group of the group-by. */
  predicate InGroup(r: Record, d: int, n: string) {
    r.date == d && r.name == n
  }

  /** Reference definition: the sum of `Experience` over the rows of `t`
      dated `d` for member `n` (0 when there are none). */
  function GroupSum(t: Table, d: int, n: string): int {
    if |t| == 0 then 0
    else (if InGroup(t[0], d, n) then t[0].experience else 0) + GroupSum(t[1..], d, n)
  }

  /** Reference definition: the sum of `Experience` over all rows. */
  function Total(t: Table): int {
    if |t| == 0 then 0 else t[0].experience + Total(t[1..])
  }

  lemma GroupSumOne(r: Record, d: int, n: string)
    ensures GroupSum([r], d, n) == if InGroup(r, d, n) then r.experience else 0
  {
    assert [r][1..] == [];
  }

  /** A group no row belongs to sums to 0. */
  lemma {:induction false} GroupSumAbsent(t: Table, d: int, n: string)
    requires forall k :: 0 <= k < |t| ==> !InGroup(t[k], d, n)
    ensures GroupSum(t, d, n) == 0
  {
    if |t| > 0 {
      assert forall k :: 0 <= k < |t[1..]| ==> t[1..][k] == t[k + 1];
      GroupSumAbsent(t[1..], d, n);
    }
  }

  /** A group exactly one row belongs to sums to that row's experience. */
  lemma {:induction false} GroupSumSingle(t: Table, k: int, d: int, n: string)
    requires 0 <= k < |t| && InGroup(t[k], d, n)
    requires forall k' :: 0 <= k' < |t| && k' != k ==> !InGroup(t[k'], d, n)
    ensures GroupSum(t, d, n) == t[k].experience
  {
    assert forall i :: 0 <= i < |t[1..]| ==> t[1..][i] == t[i + 1];
    if k == 0 {
      GroupSumAbsent(t[1..], d, n);
    } else {
      GroupSumSingle(t[1..], k - 1, d, n);
    }
  }

  lemma {:induction false} GroupSumAppend(a: Table, b: Table, d: int, n: string)
    ensures GroupSum(a + b, d, n) == GroupSum(a, d, n) + GroupSum(b, d, n)
  {
    if |a| > 0 {
      assert (a + b)[1..] == a[1..] + b;
      GroupSumAppend(a[1..], b, d, n);
    } else {
      assert a + b == b;
    }
  }

  /** Taking out the row at `k` takes one copy of it out of the multiset. */
  lemma MultisetRemoveAt(b: Table, k: int)
    requires 0 <= k < |b|
    ensures multiset(b[..k] + b[k + 1..]) == multiset(b) - multiset{b[k]}
  {
    assert b == b[..k] + [b[k]] + b[k + 1..];
  }

  /** The row at `k` contributes its share and the others the rest. */
  lemma GroupSumRemoveAt(b: Table, k: int, d: int, n: string)
    requires 0 <= k < |b|
    ensures GroupSum(b, d, n) == GroupSum([b[k]], d, n) + GroupSum(b[..k] + b[k + 1..], d, n)
  {
    assert b == b[..k] + ([b[k]] + b[k + 1..]);
    GroupSumAppend(b[..k], [b[k]] + b[k + 1..], d, n);
    GroupSumAppend([b[k]], b[k + 1..], d, n);
    GroupSumAppend(b[..k], b[k + 1..], d, n);
  }

  /** Group sums depend only on the multiset of rows, not on their order. */
  lemma {:induction false} GroupSumPermutation(a: Table, b: Table, d: int, n: string)
    requires multiset(a) == multiset(b)
    ensures GroupSum(a, d, n) == GroupSum(b, d, n)
    decreases |a|
  {
    if |a| == 0 {
      assert |b| == |multiset(b)| == 0;
    } else {
      assert a[0] in multiset(b);
      var k :| 0 <= k < |b| && b[k] == a[0];
      var rest := b[..k] + b[k + 1..];
      assert a == [a[0]] + a[1..];
      assert multiset(a[1..]) == multiset(a) - multiset{a[0]};
      MultisetRemoveAt(b, k);
      GroupSumPermutation(a[1..], rest, d, n);
      GroupSumRemoveAt(b, k, d, n);
      GroupSumOne(a[0], d, n);
    }
  }
}
