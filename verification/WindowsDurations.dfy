/**
 What a file's weight is, on the recorded rows of scripts/windows_test_shards.py: its own recorded
 time per test, or the median of all of them, times the tests it has now.
 */
module WindowsDurations {
  import opened Outcomes
  import opened Collections
  import opened WindowsShards
  import opened WindowsAllocation

  // ----- ranks among the recorded durations

  /** A row with a recorded duration per test. */
  predicate TimedRow(c: Cost) {
    c.tests > 0 && c.seconds > 0.0
  }

  function TimedRows(history: seq<Cost>): nat {
    |Where(TimedRow, history)|
  }

  predicate TakesLess(c: Cost, perTest: real) {
    TimedRow(c) && c.seconds < perTest * c.tests as real
  }

  predicate TakesUpTo(c: Cost, perTest: real) {
    TimedRow(c) && c.seconds <= perTest * c.tests as real
  }

  /** How many rows took less than this per test. */
  function Below(history: seq<Cost>, perTest: real): nat {
    |Where(c => TakesLess(c, perTest), history)|
  }

  /** How many rows took this or less per test. */
  function UpTo(history: seq<Cost>, perTest: real): nat {
    |Where(c => TakesUpTo(c, perTest), history)|
  }

  /** The recorded duration with exactly k others before it in their order. */
  predicate Ranks(history: seq<Cost>, perTest: real, k: nat) {
    Below(history, perTest) <= k < UpTo(history, perTest)
  }

  /** The two middle durations, which are one for an odd number of rows. */
  predicate LowerMiddle(history: seq<Cost>, perTest: real) {
    TimedRows(history) > 0 && Ranks(history, perTest, (TimedRows(history) - 1) / 2)
  }

  predicate UpperMiddle(history: seq<Cost>, perTest: real) {
    TimedRows(history) > 0 && Ranks(history, perTest, TimedRows(history) / 2)
  }

  /** The median: half the sum of the two. */
  ghost predicate Middle(history: seq<Cost>, perTest: real) {
    exists lower, upper ::
      LowerMiddle(history, lower) && UpperMiddle(history, upper) && 2.0 * perTest == lower + upper
  }

  lemma {:induction false} WhereConcat<T>(keep: T -> bool, a: seq<T>, b: seq<T>)
    ensures Where(keep, a + b) == Where(keep, a) + Where(keep, b)
  {
    if a == [] {
      assert a + b == b;
    } else {
      WhereConcat(keep, a[1..], b);
      var all, first := a + b, if keep(a[0]) then [a[0]] else [];
      assert all[0] == a[0] && all[1..] == a[1..] + b;
      assert Where(keep, all) == first + Where(keep, all[1..]);
      assert Where(keep, a) == first + Where(keep, a[1..]);
      hide Where;
    }
  }

  lemma {:induction false} WhereSize<T>(keep: T -> bool, s: seq<T>)
    ensures |Where(keep, s)| <= |s|
  {
    if s != [] { WhereSize(keep, s[1..]); }
  }

  lemma {:induction false} InsertWhere<T>(before: (T, T) -> bool, keep: T -> bool, x: T, s: seq<T>)
    ensures |Where(keep, Insert(before, x, s))| == |Where(keep, s)| + if keep(x) then 1 else 0
  {
    if s != [] && !before(x, s[0]) { InsertWhere(before, keep, x, s[1..]); }
  }

  /** Sorting keeps how many values meet a condition. */
  lemma {:induction false} SortWhere<T>(before: (T, T) -> bool, keep: T -> bool, s: seq<T>)
    ensures |Where(keep, Sort(before, s))| == |Where(keep, s)|
  {
    if s != [] {
      SortWhere(before, keep, s[1..]);
      InsertWhere(before, keep, s[0], Sort(before, s[1..]));
    }
  }

  /** The durations that meet a condition are as many as the rows whose duration does. */
  lemma {:induction false} RowsWhere(history: seq<Cost>, keep: real -> bool, rows: Cost -> bool)
    requires forall c: Cost :: rows(c) <==> TimedRow(c) && keep(c.seconds / c.tests as real)
    ensures |Where(keep, PerTest(history))| == |Where(rows, history)|
  {
    if history != [] {
      RowsWhere(history[1..], keep, rows);
      var first := if TimedRow(history[0]) then [history[0].seconds / history[0].tests as real] else [];
      assert PerTest(history) == first + PerTest(history[1..]);
      WhereConcat(keep, first, PerTest(history[1..]));
    }
  }

  lemma DivisionOrders(s: real, n: real, d: real)
    requires n > 0.0
    ensures (s / n < d <==> s < d * n) && (s / n <= d <==> s <= d * n)
  {
    var q := s / n;
    assert q * n == s;
    if q < d { assert q * n < d * n; }
    if q > d { assert q * n > d * n; }
  }

  lemma RowTakes(c: Cost, d: real)
    requires TimedRow(c)
    ensures c.seconds / c.tests as real < d <==> TakesLess(c, d)
    ensures c.seconds / c.tests as real <= d <==> TakesUpTo(c, d)
  {
    DivisionOrders(c.seconds, c.tests as real, d);
  }

  lemma RowsBelow(history: seq<Cost>, d: real)
    ensures |Where((x: real) => x < d, PerTest(history))| == Below(history, d)
    ensures |Where((x: real) => x <= d, PerTest(history))| == UpTo(history, d)
    ensures |PerTest(history)| == TimedRows(history)
  {
    assert forall c: Cost :: (TakesLess(c, d) ==> TimedRow(c)) && (TakesUpTo(c, d) ==> TimedRow(c));
    hide TakesLess, TakesUpTo, PerTest;
    forall c: Cost | TimedRow(c)
      ensures (c.seconds / c.tests as real < d <==> TakesLess(c, d))
              && (c.seconds / c.tests as real <= d <==> TakesUpTo(c, d))
    {
      RowTakes(c, d);
    }
    RowsWhere(history, (x: real) => x < d, c => TakesLess(c, d));
    RowsWhere(history, (x: real) => x <= d, c => TakesUpTo(c, d));
    RowsWhere(history, (x: real) => true, TimedRow);
    WhereAll((x: real) => true, PerTest(history));
  }

  /** In a sorted list, the value at an index has that many others before it. */
  lemma SortedRanks(s: seq<real>, k: nat)
    requires k < |s| && forall i, j :: 0 <= i < j < |s| ==> s[i] <= s[j]
    ensures |Where((x: real) => x < s[k], s)| <= k < |Where((x: real) => x <= s[k], s)|
  {
    var below, upTo := (x: real) => x < s[k], (x: real) => x <= s[k];
    assert s == s[..k] + s[k..] && s == s[..k + 1] + s[k + 1..];
    WhereConcat(below, s[..k], s[k..]);
    WhereSize(below, s[..k]);
    WhereNone(below, s[k..]);
    WhereConcat(upTo, s[..k + 1], s[k + 1..]);
    WhereAll(upTo, s[..k + 1]);
  }

  lemma SortedAt(history: seq<Cost>, k: nat)
    requires k < TimedRows(history)
    ensures var s := Sort((a: real, b: real) => a <= b, PerTest(history));
            |s| == TimedRows(history) && Ranks(history, s[k], k)
  {
    var before := (a: real, b: real) => a <= b;
    var s := Sort(before, PerTest(history));
    SortSorts(before, PerTest(history));
    SortLength(before, PerTest(history));
    assert forall i, j :: 0 <= i < j < |s| ==> before(s[i], s[j]);
    RowsBelow(history, 0.0);
    SortedRanks(s, k);
    RowsBelow(history, s[k]);
    SortWhere(before, (x: real) => x < s[k], PerTest(history));
    SortWhere(before, (x: real) => x <= s[k], PerTest(history));
  }

  lemma {:induction false} SomeTimedRow(history: seq<Cost>)
    ensures PerTest(history) != [] <==> exists row <- history :: TimedRow(row)
  {
    if history != [] {
      SomeTimedRow(history[1..]);
      assert history[0] in history && forall row :: row in history <==> row == history[0] || row in history[1..];
    }
  }

  lemma MedianAt(values: seq<real>)
    requires values != []
    ensures var s := Sort((a: real, b: real) => a <= b, values);
            |s| == |values| && 2.0 * Median(values) == s[(|s| - 1) / 2] + s[|s| / 2]
  {
    SortLength((a: real, b: real) => a <= b, values);
    hide Sort;
  }

  /** The fallback is the median of the recorded durations. */
  lemma MedianIsMiddle(history: seq<Cost>)
    requires PerTest(history) != []
    ensures Middle(history, Median(PerTest(history)))
  {
    hide Ranks, Sort, PerTest, Median, Below, UpTo, TimedRows;
    RowsBelow(history, 0.0);
    MedianAt(PerTest(history));
    var n, s := TimedRows(history), Sort((a: real, b: real) => a <= b, PerTest(history));
    SortedAt(history, (n - 1) / 2);
    SortedAt(history, n / 2);
    assert LowerMiddle(history, s[(n - 1) / 2]) && UpperMiddle(history, s[n / 2]);
  }

  lemma {:induction false} WhereImplies<T>(p: T -> bool, q: T -> bool, s: seq<T>)
    requires forall x <- s :: p(x) ==> q(x)
    ensures |Where(p, s)| <= |Where(q, s)|
  {
    if s != [] {
      assert s[0] in s;
      WhereImplies(p, q, s[1..]);
    }
  }

  /** No two durations have the same rank, so there is one median. */
  lemma RankIsOne(history: seq<Cost>, a: real, b: real, k: nat)
    requires Ranks(history, a, k) && Ranks(history, b, k)
    ensures a == b
  {
    var lower, upper := if a < b then a else b, if a < b then b else a;
    if lower < upper {
      forall c <- history | TakesUpTo(c, lower) ensures TakesLess(c, upper) {
        assert lower * c.tests as real < upper * c.tests as real;
      }
      WhereImplies(c => TakesUpTo(c, lower), c => TakesLess(c, upper), history);
    }
  }

  lemma MiddleIsOne(history: seq<Cost>, a: real, b: real)
    requires Middle(history, a) && Middle(history, b)
    ensures a == b
  {
    hide Ranks;
    var la, ua :| LowerMiddle(history, la) && UpperMiddle(history, ua) && 2.0 * a == la + ua;
    var lb, ub :| LowerMiddle(history, lb) && UpperMiddle(history, ub) && 2.0 * b == lb + ub;
    RankIsOne(history, la, lb, (TimedRows(history) - 1) / 2);
    RankIsOne(history, ua, ub, TimedRows(history) / 2);
  }

  // ----- the weight of a file

  /** The first row of the file. */
  predicate RowOf(history: seq<Cost>, path: File, k: nat) {
    k < |history| && history[k].path == path && forall j :: 0 <= j < k ==> history[j].path != path
  }

  /** The row counts some tests and took so long for each of them. */
  predicate Took(c: Cost, perTest: real) {
    c.tests != 0 && perTest * c.tests as real == c.seconds
  }

  /** The file's estimated time per test: that of its row, or the fallback if it has none. */
  ghost predicate Estimates(history: seq<Cost>, fallback: real, path: File, perTest: real) {
    if exists row <- history :: row.path == path then
      exists k: nat :: RowOf(history, path, k) && Took(history[k], perTest)
    else perTest == fallback
  }

  /** The weight is the estimate times the tests, or a thousandth of a second where that is more. */
  ghost predicate Weighs(history: seq<Cost>, fallback: real, path: File, tests: nat, weight: real) {
    exists perTest ::
      && Estimates(history, fallback, path, perTest)
      && weight >= 0.001 && weight >= perTest * tests as real
      && (weight == 0.001 || weight == perTest * tests as real)
  }

  /** The file's recorded row, if there is one, counts some tests. */
  ghost predicate Counted(history: seq<Cost>, path: File) {
    forall k: nat :: RowOf(history, path, k) ==> history[k].tests != 0
  }

  lemma {:induction false} LookupMeans(history: seq<Cost>, path: File) returns (k: nat)
    ensures match Lookup(history, path)
            case None => forall row <- history :: row.path != path
            case Some(row) => RowOf(history, path, k) && history[k] == row
  {
    k := 0;
    if history != [] && history[0].path != path {
      k := LookupMeans(history[1..], path);
      assert history == [history[0]] + history[1..];
      k := k + 1;
    }
  }

  lemma RowIsOne(history: seq<Cost>, path: File, j: nat, k: nat)
    requires RowOf(history, path, j) && RowOf(history, path, k)
    ensures j == k
  {
  }

  /** A file has no weight exactly when its row counts no tests, and else the one that its row or the fallback gives. */
  lemma WeightMeans(history: seq<Cost>, fallback: real, path: File, tests: nat)
    ensures match Weight(history, fallback, path, tests)
            case None => !Counted(history, path)
            case Some(weight) => Counted(history, path) && Weighs(history, fallback, path, tests, weight)
  {
    var k := LookupMeans(history, path);
    var row := Lookup(history, path);
    if row.Some? {
      forall j: nat | RowOf(history, path, j) ensures j == k { RowIsOne(history, path, j, k); }
      assert history[k] in history;
      if row.value.tests != 0 {
        var perTest := row.value.seconds / row.value.tests as real;
        assert Took(row.value, perTest);
        assert Estimates(history, fallback, path, perTest);
      }
    } else {
      forall j: nat ensures !RowOf(history, path, j) {
        if j < |history| { assert history[j] in history; }
      }
      assert Estimates(history, fallback, path, fallback);
    }
  }

  lemma TookOne(c: Cost, p: real, q: real)
    requires Took(c, p) && Took(c, q)
    ensures p == q
  {
    var n := c.tests as real;
    assert p == c.seconds / n && q == c.seconds / n;
  }

  lemma EstimateIsOne(history: seq<Cost>, fallback: real, path: File, p: real, q: real)
    requires Estimates(history, fallback, path, p) && Estimates(history, fallback, path, q)
    ensures p == q
  {
    hide Took;
    if exists row <- history :: row.path == path {
      var j: nat :| RowOf(history, path, j) && Took(history[j], p);
      var k: nat :| RowOf(history, path, k) && Took(history[k], q);
      RowIsOne(history, path, j, k);
      TookOne(history[k], p, q);
    }
  }

  /** There is one such weight, and it is positive. */
  lemma WeightIsOne(history: seq<Cost>, fallback: real, path: File, tests: nat, a: real, b: real)
    requires Weighs(history, fallback, path, tests, a) && Weighs(history, fallback, path, tests, b)
    ensures a == b > 0.0
  {
    hide Estimates;
    var p :| && Estimates(history, fallback, path, p) && a >= 0.001 && a >= p * tests as real
             && (a == 0.001 || a == p * tests as real);
    var q :| && Estimates(history, fallback, path, q) && b >= 0.001 && b >= q * tests as real
             && (b == 0.001 || b == q * tests as real);
    EstimateIsOne(history, fallback, path, p, q);
  }
}
