/** Filtering and sorting of sequences, shared by the models that partition or order rows. */
module Collections {

  predicate Unique<T(==)>(s: seq<T>) {
    forall i, j :: 0 <= i < j < |s| ==> s[i] != s[j]
  }

  function Where<T>(keep: T -> bool, s: seq<T>): seq<T> {
    if s == [] then [] else (if keep(s[0]) then [s[0]] else []) + Where(keep, s[1..])
  }

  lemma {:induction false} WhereIn<T>(keep: T -> bool, s: seq<T>, x: T)
    ensures x in Where(keep, s) <==> x in s && keep(x)
  {
    if s != [] { WhereIn(keep, s[1..], x); }
  }

  lemma {:induction false} WhereUnique<T>(keep: T -> bool, s: seq<T>)
    requires Unique(s)
    ensures Unique(Where(keep, s))
  {
    if s != [] {
      WhereUnique(keep, s[1..]);
      WhereIn(keep, s[1..], s[0]);
    }
  }

  /** Filtering by two exclusive conditions splits what their disjunction keeps. */
  lemma {:induction false} WhereEither<T>(p: T -> bool, q: T -> bool, either: T -> bool, s: seq<T>)
    requires forall x <- s :: (either(x) <==> p(x) || q(x)) && !(p(x) && q(x))
    ensures multiset(Where(either, s)) == multiset(Where(p, s)) + multiset(Where(q, s))
  {
    if s != [] {
      WhereEither(p, q, either, s[1..]);
      assert s[0] in s;
    }
  }

  lemma {:induction false} WhereSame<T>(p: T -> bool, q: T -> bool, s: seq<T>)
    requires forall x <- s :: p(x) <==> q(x)
    ensures Where(p, s) == Where(q, s)
  {
    if s != [] {
      assert s[0] in s;
      WhereSame(p, q, s[1..]);
    }
  }

  lemma {:induction false} WhereAll<T>(keep: T -> bool, s: seq<T>)
    requires forall x <- s :: keep(x)
    ensures Where(keep, s) == s
  {
    if s != [] {
      assert s[0] in s;
      WhereAll(keep, s[1..]);
    }
  }

  lemma WhereNone<T>(keep: T -> bool, s: seq<T>)
    requires forall x <- s :: !keep(x)
    ensures Where(keep, s) == []
  {
    if Where(keep, s) != [] { WhereIn(keep, s, Where(keep, s)[0]); }
  }

  lemma {:induction false} WhereAppend<T>(keep: T -> bool, s: seq<T>, x: T)
    ensures Where(keep, s + [x]) == Where(keep, s) + if keep(x) then [x] else []
  {
    if s != [] {
      WhereAppend(keep, s[1..], x);
      assert (s + [x])[1..] == s[1..] + [x];
    }
  }

  lemma {:induction false} SubsetSize<T>(a: set<T>, b: set<T>)
    requires a <= b
    ensures |a| <= |b|
  {
    if a != {} {
      var x :| x in a;
      SubsetSize(a - {x}, b - {x});
    }
  }

  // ----- stable insertion sort by a total preorder

  function Insert<T>(before: (T, T) -> bool, x: T, s: seq<T>): seq<T> {
    if s == [] || before(x, s[0]) then [x] + s else [s[0]] + Insert(before, x, s[1..])
  }

  function Sort<T>(before: (T, T) -> bool, s: seq<T>): seq<T> {
    if s == [] then [] else Insert(before, s[0], Sort(before, s[1..]))
  }

  ghost predicate Sorted<T>(before: (T, T) -> bool, s: seq<T>) {
    forall i, j :: 0 <= i < j < |s| ==> before(s[i], s[j])
  }

  ghost predicate TotalPreorder<T(!new)>(before: (T, T) -> bool) {
    && (forall x, y :: before(x, y) || before(y, x))
    && (forall x, y, z :: before(x, y) && before(y, z) ==> before(x, z))
  }

  lemma {:induction false} InsertKeeps<T>(before: (T, T) -> bool, x: T, s: seq<T>)
    ensures multiset(Insert(before, x, s)) == multiset(s) + multiset{x}
    ensures forall y :: y in Insert(before, x, s) <==> y == x || y in s
  {
    if s != [] {
      InsertKeeps(before, x, s[1..]);
      assert s == [s[0]] + s[1..];
    }
  }

  lemma SortedCons<T>(before: (T, T) -> bool, x: T, s: seq<T>)
    requires Sorted(before, s) && forall y <- s :: before(x, y)
    ensures Sorted(before, [x] + s)
  {
  }

  lemma {:induction false} InsertSorted<T(!new)>(before: (T, T) -> bool, x: T, s: seq<T>)
    requires TotalPreorder(before) && Sorted(before, s)
    ensures Sorted(before, Insert(before, x, s)) && multiset(Insert(before, x, s)) == multiset(s) + multiset{x}
  {
    InsertKeeps(before, x, s);
    if s != [] {
      if before(x, s[0]) {
        forall y <- s ensures before(x, y) {
          assert y == s[0] || before(s[0], y);
        }
        SortedCons(before, x, s);
      } else {
        InsertSorted(before, x, s[1..]);
        InsertKeeps(before, x, s[1..]);
        var rest := Insert(before, x, s[1..]);
        forall y <- rest ensures before(s[0], y) {
          if y != x { assert y in s[1..]; }
        }
        SortedCons(before, s[0], rest);
      }
    }
  }

  lemma {:induction false} SortSorts<T(!new)>(before: (T, T) -> bool, s: seq<T>)
    requires TotalPreorder(before)
    ensures Sorted(before, Sort(before, s)) && multiset(Sort(before, s)) == multiset(s)
  {
    if s != [] {
      SortSorts(before, s[1..]);
      InsertSorted(before, s[0], Sort(before, s[1..]));
      assert s == [s[0]] + s[1..];
    }
  }

  /** A sequence has no repetition exactly when every multiplicity is at most one. */
  lemma {:induction false} UniqueCounts<T>(s: seq<T>)
    ensures Unique(s) <==> forall x :: multiset(s)[x] <= 1
  {
    if s != [] {
      UniqueCounts(s[1..]);
      assert s == [s[0]] + s[1..];
      assert multiset(s) == multiset{s[0]} + multiset(s[1..]);
      if Unique(s) {
        assert s[0] !in s[1..];
      } else if Unique(s[1..]) {
        assert s[0] in s[1..];
        assert multiset(s)[s[0]] >= 2;
      } else {
        var x :| multiset(s[1..])[x] > 1;
        assert multiset(s)[x] > 1;
      }
    }
  }

  /** Sequences with the same multiset have the same elements, and are unique together. */
  lemma SameMultiset<T>(s: seq<T>, t: seq<T>)
    requires multiset(s) == multiset(t)
    ensures |s| == |t| && (forall x :: x in s <==> x in t) && (Unique(s) <==> Unique(t))
  {
    assert |multiset(s)| == |s| && |multiset(t)| == |t|;
    forall x ensures x in s <==> x in t {
      assert x in s <==> x in multiset(s);
      assert x in t <==> x in multiset(t);
    }
    UniqueCounts(s);
    UniqueCounts(t);
  }

  // ----- strings in code point order

  predicate TextBefore(a: string, b: string) {
    if a == "" then true
    else if b == "" then false
    else a[0] < b[0] || (a[0] == b[0] && TextBefore(a[1..], b[1..]))
  }

  lemma {:induction false} TextBeforeTotal(a: string, b: string)
    ensures TextBefore(a, b) || TextBefore(b, a)
  {
    if a != "" && b != "" { TextBeforeTotal(a[1..], b[1..]); }
  }

  lemma {:induction false} TextBeforeTransitive(a: string, b: string, c: string)
    requires TextBefore(a, b) && TextBefore(b, c)
    ensures TextBefore(a, c)
  {
    if a != "" && b != "" && c != "" && a[0] == b[0] == c[0] { TextBeforeTransitive(a[1..], b[1..], c[1..]); }
  }

  lemma TextBeforeOrders()
    ensures TotalPreorder(TextBefore)
  {
    forall a, b ensures TextBefore(a, b) || TextBefore(b, a) { TextBeforeTotal(a, b); }
    forall a, b, c | TextBefore(a, b) && TextBefore(b, c) ensures TextBefore(a, c) { TextBeforeTransitive(a, b, c); }
  }

  function SortText(s: seq<string>): (r: seq<string>)
    ensures Sorted(TextBefore, r) && multiset(r) == multiset(s)
    ensures |r| == |s| && (forall x :: x in r <==> x in s) && (Unique(r) <==> Unique(s))
  {
    TextBeforeOrders();
    SortSorts(TextBefore, s);
    SameMultiset(Sort(TextBefore, s), s);
    Sort(TextBefore, s)
  }
}
