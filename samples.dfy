/** Numeric samples: the ascending sort that both the database query
    (ORDER BY ... ASC) and the pandas quantiles rely on, and the sum,
    minimum and maximum of a sample.  Values are exact reals. */
module Samples {

  datatype Option<T> = None | Some(value: T)

  ghost predicate IsSorted(s: seq<real>) {
    forall i, j :: 0 <= i <= j < |s| ==> s[i] <= s[j]
  }

  /** Inserts x in front of the first element that is not smaller than x. */
  function Insert(x: real, s: seq<real>): (r: seq<real>)
    requires IsSorted(s)
    ensures IsSorted(r)
    ensures multiset(r) == multiset(s) + multiset{x}
    ensures |r| == |s| + 1
  {
    if s == [] then [x]
    else if x <= s[0] then [x] + s
    else
      var rest := Insert(x, s[1..]);
      assert s == [s[0]] + s[1..];
      assert forall k :: 0 <= k < |rest| ==> s[0] <= rest[k] by {
        forall k | 0 <= k < |rest| ensures s[0] <= rest[k] {
          assert rest[k] in multiset(rest);
          assert rest[k] in multiset(s[1..]) || rest[k] == x;
        }
      }
      [s[0]] + rest
  }

  /** Ascending sort (a permutation of the input that is ordered). */
  function Sort(s: seq<real>): (r: seq<real>)
    ensures IsSorted(r)
    ensures multiset(r) == multiset(s)
    ensures |r| == |s|
  {
    if s == [] then []
    else
      assert s == [s[0]] + s[1..];
      Insert(s[0], Sort(s[1..]))
  }

  function Sum(s: seq<real>): real {
    if s == [] then 0.0 else s[0] + Sum(s[1..])
  }

  /** Smallest element of a non-empty sample. */
  function Min(s: seq<real>): (m: real)
    requires |s| > 0
    ensures m in s
    ensures forall k :: 0 <= k < |s| ==> m <= s[k]
  {
    if |s| == 1 then s[0]
    else
      var m' := Min(s[1..]);
      assert forall k :: 1 <= k < |s| ==> s[k] == s[1..][k - 1];
      if s[0] <= m' then s[0] else m'
  }

  /** Largest element of a non-empty sample. */
  function Max(s: seq<real>): (m: real)
    requires |s| > 0
    ensures m in s
    ensures forall k :: 0 <= k < |s| ==> s[k] <= m
  {
    if |s| == 1 then s[0]
    else
      var m' := Max(s[1..]);
      assert forall k :: 1 <= k < |s| ==> s[k] == s[1..][k - 1];
      if s[0] >= m' then s[0] else m'
  }

  /** A sum of n values that all lie in [lo, hi] lies in [n * lo, n * hi]. */
  lemma {:induction false} SumBounds(s: seq<real>, lo: real, hi: real)
    requires forall k :: 0 <= k < |s| ==> lo <= s[k] <= hi
    ensures |s| as real * lo <= Sum(s) <= |s| as real * hi
  {
    if s != [] {
      assert forall k :: 0 <= k < |s[1..]| ==> s[1..][k] == s[k + 1];
      SumBounds(s[1..], lo, hi);
    }
  }

  /** A sample whose every element is c sums to n * c. */
  lemma {:induction false} SumConstant(s: seq<real>, c: real)
    requires forall k :: 0 <= k < |s| ==> s[k] == c
    ensures Sum(s) == |s| as real * c
  {
    if s != [] {
      assert forall k :: 0 <= k < |s[1..]| ==> s[1..][k] == s[k + 1];
      SumConstant(s[1..], c);
    }
  }

  /** The sorted sample starts with the minimum and ends with the maximum. */
  lemma SortedEnds(s: seq<real>)
    requires |s| > 0
    ensures Sort(s)[0] == Min(s)
    ensures Sort(s)[|s| - 1] == Max(s)
  {
    var x := Sort(s);
    var n := |s|;
    assert x[0] in multiset(s) && x[n - 1] in multiset(s);
    var i :| 0 <= i < n && s[i] == x[0];
    var i' :| 0 <= i' < n && s[i'] == x[n - 1];
    assert Min(s) in multiset(x) && Max(s) in multiset(x);
    var j :| 0 <= j < n && x[j] == Min(s);
    var j' :| 0 <= j' < n && x[j'] == Max(s);
    assert x[0] <= x[j] && x[j'] <= x[n - 1];
  }

  lemma SortedTail(s: seq<real>)
    requires IsSorted(s) && s != []
    ensures IsSorted(s[1..])
  {
    forall i, j | 0 <= i <= j < |s| - 1 ensures s[1..][i] <= s[1..][j] {
      assert s[1..][i] == s[i + 1] && s[1..][j] == s[j + 1];
    }
  }

  /** Two ordered sequences holding the same values are equal. */
  lemma {:induction false} SortedUnique(a: seq<real>, b: seq<real>)
    requires IsSorted(a) && IsSorted(b) && multiset(a) == multiset(b)
    ensures a == b
    decreases |a|
  {
    assert |a| == |multiset(a)| == |multiset(b)| == |b|;
    if a != [] {
      SameHead(a, b);
      SameTail(a, b);
      SortedTail(a);
      SortedTail(b);
      SortedUnique(a[1..], b[1..]);
      assert a == [a[0]] + a[1..] && b == [b[0]] + b[1..];
    }
  }

  lemma SameHead(a: seq<real>, b: seq<real>)
    requires IsSorted(a) && IsSorted(b) && multiset(a) == multiset(b) && a != [] && b != []
    ensures a[0] == b[0]
  {
    assert a[0] in multiset(b) && b[0] in multiset(a);
    var i :| 0 <= i < |b| && b[i] == a[0];
    var j :| 0 <= j < |a| && a[j] == b[0];
    assert b[0] <= b[i] && a[0] <= a[j];
  }

  lemma SameTail(a: seq<real>, b: seq<real>)
    requires multiset(a) == multiset(b) && a != [] && b != [] && a[0] == b[0]
    ensures multiset(a[1..]) == multiset(b[1..])
  {
    assert a == [a[0]] + a[1..] && b == [b[0]] + b[1..];
    assert multiset(a[1..]) == multiset(a) - multiset{a[0]};
    assert multiset(b[1..]) == multiset(b) - multiset{b[0]};
  }

  /** Sort returns the one ordered rearrangement of its input. */
  lemma SortIsUnique(s: seq<real>, a: seq<real>)
    requires IsSorted(a) && multiset(a) == multiset(s)
    ensures Sort(s) == a
  {
    SortedUnique(Sort(s), a);
  }
}
