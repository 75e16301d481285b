/** The inter-arrival calculator of load_time_between_data: the timestamp
    column is read in ascending order, differenced consecutively (pandas
    Series.diff), converted to seconds, and its missing values dropped.

    A timestamp is a real number of seconds; a stored row may hold NULL
    (the column is a nullable DateTime), which pandas turns into NaT.
    Missing values (NULL, NaT, NaN) are modelled as None. */
module Interarrival {
  import opened Samples

  type Row = Option<real>

  /** The two failures of the calculator that do not come from the database
      driver: no row at all, and no interval that can be formed. */
  datatype LoadError = EmptyTable | NotEnoughRecords

  datatype LoadResult = Loaded(intervals: seq<real>) | Failed(error: LoadError)

  /** pandas dropna: the present values, in order. */
  function DropNa(col: seq<Row>): (v: seq<real>)
    ensures |v| <= |col|
  {
    if col == [] then []
    else (if col[0].Some? then [col[0].value] else []) + DropNa(col[1..])
  }

  /** A column of k missing values. */
  function Nulls(k: nat): (c: seq<Row>)
    ensures |c| == k
  {
    seq(k, _ => None)
  }

  /** The values of x as a column with no missing value. */
  function Present(x: seq<real>): (c: seq<Row>)
    ensures |c| == |x|
  {
    seq(|x|, i requires 0 <= i < |x| => Some(x[i]))
  }

  /** The result of SELECT ts FROM t ORDER BY ts ASC in SQLite: NULL sorts
      before every value, the values come in ascending order. */
  function OrderAscending(rows: seq<Row>): (r: seq<Row>)
    ensures multiset(r) == multiset(rows)
    ensures DropNa(r) == Sort(DropNa(rows))
  {
    var x := DropNa(rows);
    var r := Nulls(|rows| - |x|) + Present(Sort(x));
    MultisetSplit(rows);
    PresentPermutation(Sort(x), x);
    DropNaAppend(Nulls(|rows| - |x|), Present(Sort(x)));
    DropNaNulls(|rows| - |x|);
    DropNaPresent(Sort(x));
    r
  }

  /** Difference of two neighbouring entries; missing if either is. */
  function Delta(prev: Row, cur: Row): Row {
    if prev.Some? && cur.Some? then Some(cur.value - prev.value) else None
  }

  /** pandas Series.diff() followed by dt.total_seconds(): entry i is the
      difference to entry i - 1; entry 0 has no predecessor and is NaN. */
  function DiffColumn(col: seq<Row>): (d: seq<Row>)
    ensures |d| == |col|
  {
    seq(|col|, i requires 0 <= i < |col| => if i == 0 then None else Delta(col[i - 1], col[i]))
  }

  /** Reference definition of the inter-arrival sample: the gaps between
      consecutive timestamps, T_i = t_(i+1) - t_i. */
  function Diffs(t: seq<real>): (d: seq<real>)
    ensures |d| == if |t| == 0 then 0 else |t| - 1
    ensures forall i :: 0 <= i < |d| ==> d[i] == t[i + 1] - t[i]
  {
    if |t| < 2 then [] else [t[1] - t[0]] + Diffs(t[1..])
  }

  /** load_time_between_data after the query has returned `rows`. */
  function LoadTimeBetween(rows: seq<Row>): (r: LoadResult)
    ensures r == Failed(EmptyTable) <==> |rows| == 0
    ensures r.Loaded? ==> |r.intervals| > 0
  {
    if |rows| == 0 then Failed(EmptyTable)
    else
      var timeBetween := DropNa(DiffColumn(OrderAscending(rows)));
      if |timeBetween| == 0 then Failed(NotEnoughRecords) else Loaded(timeBetween)
  }

  /** Rebuilds a timestamp sequence from its first timestamp and its gaps. */
  function Accumulate(start: real, gaps: seq<real>): (t: seq<real>)
    ensures |t| == |gaps| + 1 && t[0] == start
    decreases gaps
  {
    if gaps == [] then [start] else [start] + Accumulate(start + gaps[0], gaps[1..])
  }

  // ---------------------------------------------------------------------
  // Lemmas about missing values

  lemma {:induction false} DropNaAppend(a: seq<Row>, b: seq<Row>)
    ensures DropNa(a + b) == DropNa(a) + DropNa(b)
  {
    if a == [] {
      assert a + b == b;
    } else {
      var head := if a[0].Some? then [a[0].value] else [];
      assert (a + b)[0] == a[0] && (a + b)[1..] == a[1..] + b;
      assert DropNa(a + b) == head + DropNa(a[1..] + b);
      DropNaAppend(a[1..], b);
      assert DropNa(a) == head + DropNa(a[1..]);
    }
  }

  lemma {:induction false} DropNaNulls(k: nat)
    ensures DropNa(Nulls(k)) == []
  {
    if k > 0 {
      assert Nulls(k)[1..] == Nulls(k - 1);
      DropNaNulls(k - 1);
    }
  }

  lemma {:induction false} DropNaPresent(x: seq<real>)
    ensures DropNa(Present(x)) == x
  {
    if x != [] {
      assert Present(x)[1..] == Present(x[1..]);
      DropNaPresent(x[1..]);
    }
  }

  /** The rows are their NULLs together with their present values. */
  lemma MultisetSplit(rows: seq<Row>)
    ensures multiset(rows) == multiset(Nulls(|rows| - |DropNa(rows)|)) + multiset(Present(DropNa(rows)))
  {
    DropNaMissing(rows);
    forall r: Row ensures multiset(rows)[r] ==
      multiset(Nulls(|rows| - |DropNa(rows)|))[r] + multiset(Present(DropNa(rows)))[r]
    {
      NullsCount(|rows| - |DropNa(rows)|, r);
      PresentCount(DropNa(rows), r);
      if r.Some? {
        DropNaCount(rows, r.value);
      }
    }
  }

  /** The dropped entries are the missing ones. */
  lemma {:induction false} DropNaMissing(rows: seq<Row>)
    ensures |rows| - |DropNa(rows)| == multiset(rows)[None]
  {
    if rows != [] {
      assert rows == [rows[0]] + rows[1..];
      DropNaMissing(rows[1..]);
    }
  }

  /** A value is kept as often as it is present. */
  lemma {:induction false} DropNaCount(rows: seq<Row>, v: real)
    ensures multiset(DropNa(rows))[v] == multiset(rows)[Some(v)]
  {
    if rows != [] {
      assert rows == [rows[0]] + rows[1..];
      DropNaCount(rows[1..], v);
    }
  }

  lemma {:induction false} NullsCount(k: nat, r: Row)
    ensures multiset(Nulls(k))[r] == if r.None? then k else 0
  {
    if k > 0 {
      assert Nulls(k) == [None] + Nulls(k - 1);
      NullsCount(k - 1, r);
    }
  }

  /** Each present value occurs in the column as often as in the values,
      and no missing value occurs. */
  lemma {:induction false} PresentCount(x: seq<real>, r: Row)
    ensures multiset(Present(x))[r] == if r.Some? then multiset(x)[r.value] else 0
  {
    if x != [] {
      assert Present(x) == [Some(x[0])] + Present(x[1..]);
      assert x == [x[0]] + x[1..];
      PresentCount(x[1..], r);
    }
  }

  /** Reordering the values reorders the column the same way. */
  lemma PresentPermutation(a: seq<real>, b: seq<real>)
    requires multiset(a) == multiset(b)
    ensures multiset(Present(a)) == multiset(Present(b))
  {
    forall r: Row ensures multiset(Present(a))[r] == multiset(Present(b))[r] {
      PresentCount(a, r);
      PresentCount(b, r);
    }
  }

  // ---------------------------------------------------------------------
  // The calculator

  /** Differencing an ordered query result: the leading NULL rows and the
      first value have no present predecessor, every later value is paired
      with the value before it. */
  lemma DiffColumnOfOrdered(k: nat, x: seq<real>)
    ensures DropNa(DiffColumn(Nulls(k) + Present(x))) == Diffs(x)
  {
    if x == [] {
      assert DiffColumn(Nulls(k) + Present(x)) == Nulls(k);
      DropNaNulls(k);
    } else {
      DiffColumnShape(k, x);
      DropNaAppend(Nulls(k + 1), Present(Diffs(x)));
      DropNaNulls(k + 1);
      DropNaPresent(Diffs(x));
    }
  }

  lemma DiffColumnShape(k: nat, x: seq<real>)
    requires x != []
    ensures DiffColumn(Nulls(k) + Present(x)) == Nulls(k + 1) + Present(Diffs(x))
  {
    DiffColumnOfGaps(k, x, Diffs(x));
  }

  /** The same, for any sequence g of the consecutive gaps of x. */
  lemma DiffColumnOfGaps(k: nat, x: seq<real>, g: seq<real>)
    requires x != [] && |g| == |x| - 1
    requires forall j :: 0 <= j < |g| ==> g[j] == x[j + 1] - x[j]
    ensures DiffColumn(Nulls(k) + Present(x)) == Nulls(k + 1) + Present(g)
  {
    var d := DiffColumn(Nulls(k) + Present(x));
    var e := Nulls(k + 1) + Present(g);
    assert |d| == |e|;
    forall i | 0 <= i < |d| ensures d[i] == e[i] {
      DiffColumnAt(k, x, i);
      ColumnAt(k + 1, g, i);
    }
  }

  lemma DiffColumnAt(k: nat, x: seq<real>, i: nat)
    requires 0 <= i < k + |x|
    ensures var d := DiffColumn(Nulls(k) + Present(x));
      d[i] == if i <= k then None else Some(x[i - k] - x[i - k - 1])
  {
    var col := Nulls(k) + Present(x);
    if i > k {
      assert col[i - 1] == Present(x)[i - 1 - k];
      assert col[i] == Present(x)[i - k];
    } else if i > 0 {
      assert col[i - 1] == Nulls(k)[i - 1];
    }
  }

  /** Entry i of k NULLs followed by the values g. */
  lemma ColumnAt(k: nat, g: seq<real>, i: nat)
    requires i < k + |g|
    ensures (Nulls(k) + Present(g))[i] == if i < k then None else Some(g[i - k])
  {
    if i < k {
      assert (Nulls(k) + Present(g))[i] == Nulls(k)[i];
    } else {
      assert (Nulls(k) + Present(g))[i] == Present(g)[i - k];
    }
  }

  /** What load_time_between_data computes: no rows is EmptyTable, fewer
      than two non-NULL timestamps is NotEnoughRecords, otherwise the gaps
      between consecutive timestamps in ascending order. */
  lemma LoadCharacterization(rows: seq<Row>)
    ensures LoadTimeBetween(rows) ==
      if |rows| == 0 then Failed(EmptyTable)
      else if |DropNa(rows)| < 2 then Failed(NotEnoughRecords)
      else Loaded(Diffs(Sort(DropNa(rows))))
  {
    if |rows| > 0 {
      var x := DropNa(rows);
      DiffColumnOfOrdered(|rows| - |x|, Sort(x));
    }
  }

  /** A successful result holds one interval less than there are non-NULL
      timestamps; with no NULL stored, one less than there are rows. */
  lemma LoadLength(rows: seq<Row>)
    ensures LoadTimeBetween(rows).Loaded? <==> |DropNa(rows)| >= 2
    ensures LoadTimeBetween(rows).Loaded? ==> |LoadTimeBetween(rows).intervals| == |DropNa(rows)| - 1
    ensures (forall i :: 0 <= i < |rows| ==> rows[i].Some?) && |rows| >= 2 ==>
      LoadTimeBetween(rows).Loaded? && |LoadTimeBetween(rows).intervals| == |rows| - 1
  {
    LoadCharacterization(rows);
    if forall i :: 0 <= i < |rows| ==> rows[i].Some? {
      AllPresent(rows);
    }
  }

  lemma {:induction false} AllPresent(rows: seq<Row>)
    requires forall i :: 0 <= i < |rows| ==> rows[i].Some?
    ensures |DropNa(rows)| == |rows|
  {
    if rows != [] {
      AllPresent(rows[1..]);
    }
  }

  /** Exactly one row is the NotEnoughRecords error, distinct from EmptyTable. */
  lemma SingleRow(rows: seq<Row>)
    requires |rows| == 1
    ensures LoadTimeBetween(rows) == Failed(NotEnoughRecords)
  {
    LoadCharacterization(rows);
  }

  /** Interval i is the gap between the i-th and (i+1)-th timestamp in
      ascending order, so no interval is negative and two equal timestamps
      give a zero interval. */
  lemma IntervalsAreGaps(rows: seq<Row>)
    requires LoadTimeBetween(rows).Loaded?
    ensures var t := Sort(DropNa(rows)); var d := LoadTimeBetween(rows).intervals;
      |d| == |t| - 1 &&
      (forall i :: 0 <= i < |d| ==> d[i] == t[i + 1] - t[i] && d[i] >= 0.0) &&
      (forall i :: 0 <= i < |d| ==> (d[i] == 0.0 <==> t[i] == t[i + 1]))
  {
    var t := Sort(DropNa(rows));
    assert LoadTimeBetween(rows).intervals == Diffs(t) by {
      LoadCharacterization(rows);
    }
    GapsOfSorted(t);
  }

  /** The gaps of an ascending sequence are never negative, and zero
      exactly between equal neighbours. */
  lemma GapsOfSorted(t: seq<real>)
    requires IsSorted(t)
    ensures var d := Diffs(t);
      |d| == if |t| == 0 then 0 else |t| - 1
    ensures var d := Diffs(t);
      (forall i :: 0 <= i < |d| ==> d[i] == t[i + 1] - t[i] && d[i] >= 0.0) &&
      (forall i :: 0 <= i < |d| ==> (d[i] == 0.0 <==> t[i] == t[i + 1]))
  {
    var d := Diffs(t);
    forall i | 0 <= i < |d| ensures d[i] >= 0.0 {
      assert t[i] <= t[i + 1];
    }
  }

  /** Accumulating the gaps from the first timestamp gives the timestamps back. */
  lemma {:induction false} AccumulateDiffs(t: seq<real>)
    requires |t| > 0
    ensures Accumulate(t[0], Diffs(t)) == t
  {
    if |t| >= 2 {
      AccumulateDiffs(t[1..]);
      assert t[0] + Diffs(t)[0] == t[1];
      assert Diffs(t)[1..] == Diffs(t[1..]);
    }
  }

  /** The gaps of an accumulated sequence are the gaps accumulated. */
  lemma {:induction false} DiffsAccumulate(start: real, gaps: seq<real>)
    ensures Diffs(Accumulate(start, gaps)) == gaps
    decreases gaps
  {
    if gaps != [] {
      DiffsAccumulate(start + gaps[0], gaps[1..]);
      var t := Accumulate(start, gaps);
      assert t[1..] == Accumulate(start + gaps[0], gaps[1..]);
    }
  }

  /** The gaps add up to the time between the first and the last timestamp. */
  lemma {:induction false} DiffsTelescope(t: seq<real>)
    requires |t| > 0
    ensures Sum(Diffs(t)) == t[|t| - 1] - t[0]
  {
    if |t| >= 2 {
      DiffsTelescope(t[1..]);
      assert Diffs(t) == [t[1] - t[0]] + Diffs(t[1..]);
    }
  }

  /** The intervals of a load add up to the span of the stored timestamps. */
  lemma LoadSpan(rows: seq<Row>)
    requires LoadTimeBetween(rows).Loaded?
    ensures |DropNa(rows)| >= 2
    ensures Sum(LoadTimeBetween(rows).intervals) == Max(DropNa(rows)) - Min(DropNa(rows))
  {
    LoadCharacterization(rows);
    var x := DropNa(rows);
    DiffsTelescope(Sort(x));
    SortedEnds(x);
  }

  /** Example: timestamps 0, 5, 5, 12 give intervals 5, 0, 7. */
  lemma Example()
    ensures LoadTimeBetween([Some(0.0), Some(5.0), Some(5.0), Some(12.0)]) == Loaded([5.0, 0.0, 7.0])
  {
    var t := [0.0, 5.0, 5.0, 12.0];
    ExampleRows();
    ExampleGaps(t);
    LoadOfStored([Some(0.0), Some(5.0), Some(5.0), Some(12.0)], t);
  }

  lemma ExampleRows()
    ensures DropNa([Some(0.0), Some(5.0), Some(5.0), Some(12.0)]) == [0.0, 5.0, 5.0, 12.0]
  {
    var t := [0.0, 5.0, 5.0, 12.0];
    assert Present(t) == [Some(0.0), Some(5.0), Some(5.0), Some(12.0)];
    DropNaPresent(t);
  }

  /** The load of rows with at least two non-NULL timestamps. */
  lemma LoadOfStored(rows: seq<Row>, stored: seq<real>)
    requires DropNa(rows) == stored && |stored| >= 2
    ensures LoadTimeBetween(rows) == Loaded(Diffs(Sort(stored)))
  {
    LoadCharacterization(rows);
  }

  lemma ExampleGaps(stored: seq<real>)
    requires multiset(stored) == multiset([0.0, 5.0, 5.0, 12.0])
    ensures Diffs(Sort(stored)) == [5.0, 0.0, 7.0]
  {
    ExampleOrdered();
    SortIsUnique(stored, [0.0, 5.0, 5.0, 12.0]);
    ExampleDiffs();
  }

  lemma ExampleOrdered()
    ensures IsSorted([0.0, 5.0, 5.0, 12.0])
  {
  }

  lemma ExampleDiffs()
    ensures Diffs([0.0, 5.0, 5.0, 12.0]) == [5.0, 0.0, 7.0]
  {
    var d := Diffs([0.0, 5.0, 5.0, 12.0]);
    assert d[0] == 5.0 && d[1] == 0.0 && d[2] == 7.0;
  }

  /** Stored out of order and with a NULL, the same timestamps give the same
      intervals: the query sorts them and the NULL is dropped. */
  lemma ExampleUnordered()
    ensures LoadTimeBetween([Some(12.0), Some(5.0), None, Some(0.0), Some(5.0)]) == Loaded([5.0, 0.0, 7.0])
  {
    var rows := [Some(12.0), Some(5.0), None, Some(0.0), Some(5.0)];
    var stored := [12.0, 5.0, 0.0, 5.0];
    ExampleUnorderedStored();
    ExampleStored();
    ExampleGaps(stored);
    LoadOfStored(rows, stored);
  }

  lemma ExampleUnorderedStored()
    ensures DropNa([Some(12.0), Some(5.0), None, Some(0.0), Some(5.0)]) == [12.0, 5.0, 0.0, 5.0]
  {
    var rows := [Some(12.0), Some(5.0), None, Some(0.0), Some(5.0)];
    assert rows == Present([12.0, 5.0]) + [None] + Present([0.0, 5.0]);
    DropNaAppend(Present([12.0, 5.0]) + [None], Present([0.0, 5.0]));
    DropNaAppend(Present([12.0, 5.0]), [None]);
    DropNaPresent([12.0, 5.0]);
    DropNaPresent([0.0, 5.0]);
  }

  lemma ExampleStored()
    ensures multiset([12.0, 5.0, 0.0, 5.0]) == multiset([0.0, 5.0, 5.0, 12.0])
  {
    assert multiset([12.0, 5.0, 0.0, 5.0]) == multiset{12.0, 5.0, 0.0, 5.0};
    assert multiset([0.0, 5.0, 5.0, 12.0]) == multiset{0.0, 5.0, 5.0, 12.0};
  }
}
