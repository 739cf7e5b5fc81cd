/** `rolling_12_week_average` (nhse_scraper.py): sort the observations by
    date, then for each group take the trailing mean of at most 12 of its
    values, defined once at least 4 of them have been seen. Values are exact
    reals; dates are already numeric. */
module Rolling {
  import opened Wrappers
  import opened Seqs

  const Window: nat := 12
  const MinPeriods: nat := 4

  /** One row of the weekly series: its date, its group key and its value. */
  datatype Obs<G> = Obs(date: int, group: G, value: real)

  /** One output row: the input row with its `avg_12w`, or none (NaN). */
  datatype Averaged<G> = Averaged(obs: Obs<G>, avg: Option<real>)

  // ---------------------------------------------------------------------
  // Sums and means
  // ---------------------------------------------------------------------

  function Total(vs: seq<real>): real
    decreases |vs|
  {
    if |vs| == 0 then 0.0 else Total(vs[..|vs| - 1]) + vs[|vs| - 1]
  }

  function Mean(vs: seq<real>): real
    requires |vs| > 0
  {
    Total(vs) / (|vs| as real)
  }

  lemma {:induction false} TotalAppend(u: seq<real>, v: seq<real>)
    ensures Total(u + v) == Total(u) + Total(v)
    decreases |v|
  {
    if |v| > 0 {
      assert (u + v)[..|u + v| - 1] == u + v[..|v| - 1];
      TotalAppend(u, v[..|v| - 1]);
    } else {
      assert u + v == u;
    }
  }

  lemma {:induction false} TotalBounds(vs: seq<real>, lo: real, hi: real)
    requires forall k :: 0 <= k < |vs| ==> lo <= vs[k] <= hi
    ensures (|vs| as real) * lo <= Total(vs) <= (|vs| as real) * hi
    decreases |vs|
  {
    if |vs| > 0 {
      var n := (|vs| - 1) as real;
      TotalBounds(vs[..|vs| - 1], lo, hi);
      var last := vs[|vs| - 1];
      assert lo <= last <= hi;
      assert Total(vs) == Total(vs[..|vs| - 1]) + last;
      assert (n + 1.0) * lo == n * lo + lo && (n + 1.0) * hi == n * hi + hi;
    }
  }

  /** A mean lies between any lower and upper bound of its values. */
  lemma MeanBounds(vs: seq<real>, lo: real, hi: real)
    requires |vs| > 0
    requires forall k :: 0 <= k < |vs| ==> lo <= vs[k] <= hi
    ensures lo <= Mean(vs) <= hi
  {
    TotalBounds(vs, lo, hi);
    var n := |vs| as real;
    assert Mean(vs) * n == Total(vs);
  }

  // ---------------------------------------------------------------------
  // Sorting by date
  // ---------------------------------------------------------------------

  predicate SortedByDate<G>(s: seq<Obs<G>>)
  {
    forall i, j :: 0 <= i < j < |s| ==> s[i].date <= s[j].date
  }

  /** Insert `x` before the first row that is not earlier than it. */
  function Insert<G>(x: Obs<G>, s: seq<Obs<G>>): (r: seq<Obs<G>>)
    requires SortedByDate(s)
    ensures SortedByDate(r)
    ensures |r| == |s| + 1
    ensures multiset(r) == multiset(s) + multiset{x}
    ensures r[0] == x || (|s| > 0 && r[0] == s[0])
    decreases |s|
  {
    if |s| == 0 || x.date <= s[0].date then [x] + s
    else
      var rest := Insert(x, s[1..]);
      assert s == [s[0]] + s[1..];
      [s[0]] + rest
  }

  /** `x.sort_values(date_col)`: sorted by date, and the same rows. */
  function SortByDate<G>(xs: seq<Obs<G>>): (r: seq<Obs<G>>)
    ensures SortedByDate(r)
    ensures |r| == |xs|
    ensures multiset(r) == multiset(xs)
    decreases |xs|
  {
    if |xs| == 0 then []
    else
      assert xs == [xs[0]] + xs[1..];
      Insert(xs[0], SortByDate(xs[1..]))
  }

  // ---------------------------------------------------------------------
  // The grouped trailing window
  // ---------------------------------------------------------------------

  function InGroup<G(==)>(g: G): Obs<G> -> bool
  {
    (o: Obs<G>) => o.group == g
  }

  function Values<G>(s: seq<Obs<G>>): (vs: seq<real>)
    ensures |vs| == |s|
  {
    seq(|s|, k requires 0 <= k < |s| => s[k].value)
  }

  /** The values of row i's group up to and including row i. */
  function GroupValues<G(==)>(s: seq<Obs<G>>, i: nat): seq<real>
    requires i < |s|
  {
    Values(Filter(s[..i + 1], InGroup(s[i].group)))
  }

  /** The last n values, or all of them when there are fewer. */
  function Last(vs: seq<real>, n: nat): (r: seq<real>)
    ensures |r| == if |vs| <= n then |vs| else n
    ensures r == vs[|vs| - |r|..]
  {
    if |vs| <= n then vs else vs[|vs| - n..]
  }

  /** `s.rolling(12, min_periods=4).mean()` at row i of its group. */
  function AverageAt<G(==)>(s: seq<Obs<G>>, i: nat): (a: Option<real>)
    requires i < |s|
    ensures a.Some? ==> MinPeriods <= |Last(GroupValues(s, i), Window)| <= Window
  {
    var vs := GroupValues(s, i);
    if |vs| < MinPeriods then None else Some(Mean(Last(vs, Window)))
  }

  /** The whole transform: the rows in date order, each with its average. */
  function Rolling12<G(==)>(xs: seq<Obs<G>>): (r: seq<Averaged<G>>)
    ensures |r| == |xs|
    ensures SortedByDate(Observations(r))
    ensures multiset(Observations(r)) == multiset(xs)
    ensures forall i :: 0 <= i < |r| ==> r[i].avg == AverageAt(Observations(r), i)
  {
    var s := SortByDate(xs);
    var r := seq(|s|, i requires 0 <= i < |s| => Averaged(s[i], AverageAt(s, i)));
    assert Observations(r) == s;
    r
  }

  function Min(a: int, b: int): int
  {
    if a <= b then a else b
  }

  function Observations<G>(r: seq<Averaged<G>>): (s: seq<Obs<G>>)
    ensures |s| == |r|
  {
    seq(|r|, k requires 0 <= k < |r| => r[k].obs)
  }

  // ---------------------------------------------------------------------
  // Properties
  // ---------------------------------------------------------------------

  /** Row i has no average while fewer than 4 rows of its group have been
      seen up to and including it; otherwise it has the mean of that group's
      last min(k, 12) values, its own included. */
  lemma TrailingWindow<G>(xs: seq<Obs<G>>, i: nat)
    requires i < |xs|
    ensures var r := Rolling12(xs);
      var s := Observations(r);
      var vs := Values(Filter(s[..i + 1], InGroup(s[i].group)));
      && (r[i].avg.None? <==> |vs| < MinPeriods)
      && (r[i].avg.Some? ==> r[i].avg.value == Mean(vs[|vs| - Min(|vs|, Window)..]))
  {
  }

  lemma ValuesAppend<G>(u: seq<Obs<G>>, v: seq<Obs<G>>)
    ensures Values(u + v) == Values(u) + Values(v)
  {
  }

  /** Reordering the rows does not change the sum of their values. */
  lemma {:induction false} TotalPermutation<G>(a: seq<Obs<G>>, b: seq<Obs<G>>)
    requires multiset(a) == multiset(b)
    ensures Total(Values(a)) == Total(Values(b))
    decreases |a|
  {
    if |a| == 0 {
      assert |b| == |multiset(b)| == 0;
    } else {
      var n := |a|;
      var x := a[n - 1];
      assert a == a[..n - 1] + [x];
      assert x in multiset(b);
      var k :| 0 <= k < |b| && b[k] == x;
      var b' := b[..k] + b[k + 1..];
      assert b == b[..k] + [x] + b[k + 1..];
      assert multiset(b') == multiset(b) - multiset{x};
      TotalPermutation(a[..n - 1], b');
      ValuesAppend(a[..n - 1], [x]);
      TotalAppend(Values(a[..n - 1]), Values([x]));
      ValuesAppend(b[..k] + [x], b[k + 1..]);
      ValuesAppend(b[..k], [x]);
      ValuesAppend(b[..k], b[k + 1..]);
      TotalAppend(Values(b[..k]) + Values([x]), Values(b[k + 1..]));
      TotalAppend(Values(b[..k]), Values([x]));
      TotalAppend(Values(b[..k]), Values(b[k + 1..]));
    }
  }

  /** Reordering the rows keeps how many rows each group has. */
  lemma GroupSizePermutation<G>(a: seq<Obs<G>>, b: seq<Obs<G>>, g: G)
    requires multiset(a) == multiset(b)
    ensures |Filter(a, InGroup(g))| == |Filter(b, InGroup(g))|
  {
    FilterPermutation(a, b, InGroup(g));
    assert |multiset(Filter(a, InGroup(g)))| == |multiset(Filter(b, InGroup(g)))|;
  }

  /** Up to row i a group has no more rows than in the whole table. */
  lemma GroupPrefixSize<G>(s: seq<Obs<G>>, i: nat, g: G)
    requires i < |s|
    ensures |Filter(s[..i + 1], InGroup(g))| <= |Filter(s, InGroup(g))|
  {
    assert s == s[..i + 1] + s[i + 1..];
    FilterAppend(s[..i + 1], s[i + 1..], InGroup(g));
  }

  /** A group with fewer than 4 rows never gets an average. */
  lemma SmallGroupUndefined<G>(xs: seq<Obs<G>>, g: G)
    requires |Filter(xs, InGroup(g))| < MinPeriods
    ensures var r := Rolling12(xs);
      forall i :: 0 <= i < |r| && r[i].obs.group == g ==> r[i].avg.None?
  {
    var r := Rolling12(xs);
    var s := Observations(r);
    GroupSizePermutation(s, xs, g);
    forall i | 0 <= i < |r| && r[i].obs.group == g
      ensures r[i].avg.None?
    {
      GroupPrefixSize(s, i, g);
      assert |GroupValues(s, i)| < MinPeriods;
    }
  }

  /** A value of the window is the value of one of its rows. */
  lemma ValueOfSomeRow<G>(s: seq<Obs<G>>, v: real)
    requires v in Values(s)
    ensures exists o :: o in s && o.value == v
  {
    var k :| 0 <= k < |s| && Values(s)[k] == v;
    assert s[k] in s;
  }

  /** Every average of a group lies within the range of that group's values. */
  lemma AverageWithinRange<G>(xs: seq<Obs<G>>, g: G, lo: real, hi: real)
    requires forall o :: o in xs && o.group == g ==> lo <= o.value <= hi
    ensures var r := Rolling12(xs);
      forall i :: 0 <= i < |r| && r[i].obs.group == g && r[i].avg.Some? ==> lo <= r[i].avg.value <= hi
  {
    var r := Rolling12(xs);
    var s := Observations(r);
    forall i | 0 <= i < |r| && r[i].obs.group == g && r[i].avg.Some?
      ensures lo <= r[i].avg.value <= hi
    {
      var rows := Filter(s[..i + 1], InGroup(g));
      var vs := Values(rows);
      var w := vs[|vs| - Min(|vs|, Window)..];
      forall k | 0 <= k < |w|
        ensures lo <= w[k] <= hi
      {
        assert w[k] in vs;
        ValueOfSomeRow(rows, w[k]);
        var o :| o in rows && o.value == w[k];
        assert o in s[..i + 1];
        assert o in multiset(xs);
      }
      MeanBounds(w, lo, hi);
    }
  }

  /** A group whose every value is c averages to c wherever it is defined. */
  lemma ConstantGroupAverage<G>(xs: seq<Obs<G>>, g: G, c: real)
    requires forall o :: o in xs && o.group == g ==> o.value == c
    ensures var r := Rolling12(xs);
      forall i :: 0 <= i < |r| && r[i].obs.group == g && r[i].avg.Some? ==> r[i].avg.value == c
  {
    AverageWithinRange(xs, g, c, c);
  }

  /** Twelve rows of one group: the last one averages all twelve. */
  lemma SingleGroupLast<G>(s: seq<Obs<G>>, g: G)
    requires |s| == Window
    requires forall o :: o in s ==> o.group == g
    ensures AverageAt(s, Window - 1) == Some(Mean(Values(s)))
  {
    assert s[..12] == s;
    assert s[11] in s;
    FilterAll(s, InGroup(g));
    var vs := Values(s);
    assert GroupValues(s, 11) == vs;
    assert Last(vs, Window) == vs;
  }

  /** A single group of exactly 12 weeks: the last week's average is the
      mean of all twelve values, whatever order they came in. */
  lemma FullWindowMean<G>(xs: seq<Obs<G>>, g: G)
    requires |xs| == Window
    requires forall o :: o in xs ==> o.group == g
    ensures Rolling12(xs)[Window - 1].avg == Some(Mean(Values(xs)))
  {
    var r := Rolling12(xs);
    var s := Observations(r);
    assert multiset(s) == multiset(xs);
    forall o | o in s
      ensures o.group == g
    {
      assert o in multiset(s);
      assert o in xs;
    }
    SingleGroupLast(s, g);
    assert r[11].avg == AverageAt(s, 11);
    TotalPermutation(s, xs);
  }
}
