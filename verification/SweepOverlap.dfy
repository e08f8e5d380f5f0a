/**
 The sweep line of scripts/measure_subchat_research.py, against the length of time that at least
 two intervals cover. Times are real numbers.
 */
module SweepOverlap {
  import opened Collections

  datatype Interval = Interval(start: real, end: real)
  datatype Event = Event(time: real, change: int)

  predicate Forward(intervals: seq<Interval>) {
    forall v <- intervals :: v.start <= v.end
  }

  // ----- the sweep

  function Starts(intervals: seq<Interval>): seq<Event> {
    if intervals == [] then [] else [Event(intervals[0].start, 1)] + Starts(intervals[1..])
  }

  function Ends(intervals: seq<Interval>): seq<Event> {
    if intervals == [] then [] else [Event(intervals[0].end, -1)] + Ends(intervals[1..])
  }

  /** By time and, at one time, ends before starts. */
  predicate Earlier(e: Event, f: Event) {
    e.time < f.time || (e.time == f.time && e.change <= f.change)
  }

  function Events(intervals: seq<Interval>): seq<Event> {
    Sort(Earlier, Starts(intervals) + Ends(intervals))
  }

  /** What the loop still adds, from its state at some event. */
  function Swept(events: seq<Event>, active: int, previous: real): real {
    if events == [] then 0.0
    else
      (if active >= 2 then events[0].time - previous else 0.0)
      + Swept(events[1..], active + events[0].change, events[0].time)
  }

  // ----- the length covered at least twice

  /** How many intervals contain a time. */
  function Depth(intervals: seq<Interval>, t: real): nat {
    if intervals == [] then 0
    else (if intervals[0].start <= t <= intervals[0].end then 1 else 0) + Depth(intervals[1..], t)
  }

  ghost predicate Ascending(cuts: seq<real>) {
    forall i, j :: 0 <= i <= j < |cuts| ==> cuts[i] <= cuts[j]
  }

  /** Ascending times among which are all starts and ends. */
  ghost predicate Cuts(intervals: seq<Interval>, cuts: seq<real>) {
    Ascending(cuts) && forall v <- intervals :: v.start in cuts && v.end in cuts
  }

  /** The width of the segments between neighbouring cuts that two intervals cover in the middle. */
  function TwiceCovered(intervals: seq<Interval>, cuts: seq<real>): real {
    if |cuts| < 2 then 0.0
    else
      (if Depth(intervals, (cuts[0] + cuts[1]) / 2.0) >= 2 then cuts[1] - cuts[0] else 0.0)
      + TwiceCovered(intervals, cuts[1..])
  }

  lemma NoCutBetween(cuts: seq<real>, k: nat, c: real)
    requires Ascending(cuts) && k + 1 < |cuts| && c in cuts
    ensures c <= cuts[k] || c >= cuts[k + 1]
  {
    var i :| 0 <= i < |cuts| && cuts[i] == c;
    assert i <= k || k + 1 <= i;
  }

  /** The middle stands for the whole segment: the depth is the same everywhere between neighbouring cuts. */
  lemma {:induction false} DepthIsSteady(intervals: seq<Interval>, cuts: seq<real>, k: nat, t: real, u: real)
    requires Cuts(intervals, cuts) && k + 1 < |cuts| && cuts[k] < t < cuts[k + 1] && cuts[k] < u < cuts[k + 1]
    ensures Depth(intervals, t) == Depth(intervals, u)
    decreases |intervals|
  {
    if intervals != [] {
      NoCutBetween(cuts, k, intervals[0].start);
      NoCutBetween(cuts, k, intervals[0].end);
      DepthIsSteady(intervals[1..], cuts, k, t, u);
    }
  }

  function TimesOf(events: seq<Event>): (times: seq<real>)
    ensures |times| == |events| && forall k :: 0 <= k < |times| ==> times[k] == events[k].time
  {
    if events == [] then [] else [events[0].time] + TimesOf(events[1..])
  }

  lemma TimesHave(events: seq<Event>, e: Event)
    requires e in events
    ensures e.time in TimesOf(events)
  {
    var k :| 0 <= k < |events| && events[k] == e;
    assert TimesOf(events)[k] == e.time;
  }

  lemma EarlierOrders()
    ensures TotalPreorder(Earlier)
  {
  }

  lemma EventsInOrder(intervals: seq<Interval>)
    ensures var events := Events(intervals);
            forall i, j :: 0 <= i <= j < |events| ==> events[i].time <= events[j].time
    ensures forall e :: e in Events(intervals) <==> e in Starts(intervals) + Ends(intervals)
  {
    EarlierOrders();
    SortSorts(Earlier, Starts(intervals) + Ends(intervals));
    SameMultiset(Events(intervals), Starts(intervals) + Ends(intervals));
    var events := Events(intervals);
    forall i, j | 0 <= i < j < |events| ensures events[i].time <= events[j].time {
      assert Earlier(events[i], events[j]);
    }
  }

  lemma {:induction false} StartsHave(intervals: seq<Interval>, v: Interval)
    requires v in intervals
    ensures Event(v.start, 1) in Starts(intervals) && Event(v.end, -1) in Ends(intervals)
  {
    if v != intervals[0] { StartsHave(intervals[1..], v); }
  }

  lemma EventsHave(intervals: seq<Interval>, v: Interval)
    requires v in intervals
    ensures Event(v.start, 1) in Events(intervals) && Event(v.end, -1) in Events(intervals)
  {
    StartsHave(intervals, v);
    EventsInOrder(intervals);
  }

  /** The starts and ends themselves, in order, are such cuts. */
  lemma EndpointsAreCuts(intervals: seq<Interval>)
    ensures Cuts(intervals, TimesOf(Events(intervals)))
  {
    var times := TimesOf(Events(intervals));
    EventsInOrder(intervals);
    forall v <- intervals ensures v.start in times && v.end in times {
      EventsHave(intervals, v);
      TimesHave(Events(intervals), Event(v.start, 1));
      TimesHave(Events(intervals), Event(v.end, -1));
    }
  }

  /** Every event is at a start or an end. */
  lemma {:induction false} EventsAtEndpoints(intervals: seq<Interval>, e: Event)
    requires e in Starts(intervals) || e in Ends(intervals)
    ensures exists v :: v in intervals && (e.time == v.start || e.time == v.end)
  {
    if e == Event(intervals[0].start, 1) || e == Event(intervals[0].end, -1) {
      assert intervals[0] in intervals;
    } else {
      EventsAtEndpoints(intervals[1..], e);
      var v :| v in intervals[1..] && (e.time == v.start || e.time == v.end);
      assert v in intervals;
    }
  }

  // ----- the running count is the depth

  function Sum(events: seq<Event>): int {
    if events == [] then 0 else events[0].change + Sum(events[1..])
  }

  /** The changes up to and at a time. */
  function Changes(events: seq<Event>, p: real): int {
    if events == [] then 0
    else (if events[0].time <= p then events[0].change else 0) + Changes(events[1..], p)
  }

  lemma {:induction false} ChangesConcat(a: seq<Event>, b: seq<Event>, p: real)
    ensures Changes(a + b, p) == Changes(a, p) + Changes(b, p)
  {
    if a == [] {
      assert a + b == b;
    } else {
      ChangesConcat(a[1..], b, p);
      assert (a + b)[1..] == a[1..] + b;
    }
  }

  lemma {:induction false} SumAppend(a: seq<Event>, e: Event)
    ensures Sum(a + [e]) == Sum(a) + e.change
  {
    if a != [] {
      SumAppend(a[1..], e);
      assert (a + [e])[1..] == a[1..] + [e];
    }
  }

  lemma {:induction false} ChangesInsert(e: Event, s: seq<Event>, p: real)
    ensures Changes(Insert(Earlier, e, s), p) == Changes([e] + s, p)
  {
    if s != [] { ChangesInsert(e, s[1..], p); }
  }

  lemma {:induction false} ChangesSort(s: seq<Event>, p: real)
    ensures Changes(Sort(Earlier, s), p) == Changes(s, p)
  {
    if s != [] {
      ChangesSort(s[1..], p);
      ChangesInsert(s[0], Sort(Earlier, s[1..]), p);
    }
  }

  lemma {:induction false} AllPassed(events: seq<Event>, p: real)
    requires forall e <- events :: e.time <= p
    ensures Changes(events, p) == Sum(events)
  {
    if events != [] { AllPassed(events[1..], p); }
  }

  lemma {:induction false} NonePassed(events: seq<Event>, p: real)
    requires forall e <- events :: e.time > p
    ensures Changes(events, p) == 0
  {
    if events != [] { NonePassed(events[1..], p); }
  }

  /** Where no interval starts or ends between p and c, the changes up to p count the intervals in between. */
  lemma {:induction false} ChangesAreDepth(intervals: seq<Interval>, p: real, c: real, t: real)
    requires Forward(intervals) && p < t < c
    requires forall v <- intervals :: (v.start <= p || v.start >= c) && (v.end <= p || v.end >= c)
    ensures Changes(Starts(intervals), p) + Changes(Ends(intervals), p) == Depth(intervals, t)
  {
    if intervals != [] { ChangesAreDepth(intervals[1..], p, c, t); }
  }

  lemma RunningCountIsDepth(intervals: seq<Interval>, done: seq<Event>, todo: seq<Event>, p: real, c: real, t: real)
    requires Forward(intervals) && done + todo == Events(intervals) && p < t < c
    requires (forall e <- done :: e.time <= p) && (forall e <- todo :: e.time >= c)
    ensures Sum(done) == Depth(intervals, t)
  {
    AllPassed(done, p);
    NonePassed(todo, p);
    ChangesConcat(done, todo, p);
    ChangesSort(Starts(intervals) + Ends(intervals), p);
    ChangesConcat(Starts(intervals), Ends(intervals), p);
    forall v <- intervals ensures (v.start <= p || v.start >= c) && (v.end <= p || v.end >= c) {
      EventsHave(intervals, v);
    }
    ChangesAreDepth(intervals, p, c, t);
  }

  /** Moving the start of the sweep forward, short of the next event, takes off what lies between. */
  lemma SweptFrom(events: seq<Event>, active: int, p: real, q: real)
    requires events != []
    ensures Swept(events, active, p) == (if active >= 2 then q - p else 0.0) + Swept(events, active, q)
  {
  }

  lemma {:induction false} StartsBalance(intervals: seq<Interval>, p: real)
    requires forall e :: e in Starts(intervals) || e in Ends(intervals) ==> e.time <= p
    ensures Changes(Starts(intervals), p) + Changes(Ends(intervals), p) == 0
  {
    if intervals != [] {
      assert Starts(intervals)[0] in Starts(intervals) && Ends(intervals)[0] in Ends(intervals);
      forall e | e in Starts(intervals[1..]) || e in Ends(intervals[1..]) ensures e.time <= p {
        assert e in Starts(intervals) || e in Ends(intervals);
      }
      StartsBalance(intervals[1..], p);
    }
  }

  function Latest(events: seq<Event>): (p: real)
    ensures forall e <- events :: e.time <= p
  {
    if events == [] then 0.0
    else
      var rest := Latest(events[1..]);
      assert forall e <- events :: e == events[0] || e in events[1..];
      if events[0].time > rest then events[0].time else rest
  }

  /** The balance of starts and ends. */
  lemma BalancedAtTheEnd(intervals: seq<Interval>)
    ensures Sum(Events(intervals)) == 0
  {
    var p := Latest(Events(intervals));
    AllPassed(Events(intervals), p);
    ChangesSort(Starts(intervals) + Ends(intervals), p);
    ChangesConcat(Starts(intervals), Ends(intervals), p);
    EventsInOrder(intervals);
    StartsBalance(intervals, p);
  }

  /** `done` are the events at or before p, `todo` the others, each at p or at a later cut. */
  ghost predicate Aligned(intervals: seq<Interval>, done: seq<Event>, todo: seq<Event>, p: real, cuts: seq<real>) {
    && done + todo == Events(intervals)
    && Ascending([p] + cuts)
    && (forall e <- done :: e.time <= p)
    && forall e <- todo :: e.time == p || e.time in cuts
  }

  lemma NextEvent(intervals: seq<Interval>, done: seq<Event>, todo: seq<Event>, p: real, cuts: seq<real>)
    requires Aligned(intervals, done, todo, p, cuts) && todo != [] && todo[0].time == p
    ensures Aligned(intervals, done + [todo[0]], todo[1..], p, cuts)
    ensures Swept(todo, Sum(done), p) == Swept(todo[1..], Sum(done + [todo[0]]), p)
  {
    hide Events;
    SumAppend(done, todo[0]);
    assert done + [todo[0]] + todo[1..] == done + todo;
  }

  lemma LaterEvent(intervals: seq<Interval>, done: seq<Event>, todo: seq<Event>, p: real, cuts: seq<real>, e: Event)
    requires done + todo == Events(intervals) && cuts != [] && Ascending([p] + cuts)
    requires (forall f <- todo :: f.time == p || f.time in cuts) && e in todo && todo[0].time != p
    ensures e.time >= cuts[0]
  {
    EventsInOrder(intervals);
    var all := [p] + cuts;
    forall x | x in cuts ensures cuts[0] <= x && p <= cuts[0] {
      var i :| 0 <= i < |cuts| && cuts[i] == x;
      assert all[1] == cuts[0] && all[i + 1] == x && all[0] == p;
    }
    assert todo[0] in todo;
    var k :| 0 <= k < |todo| && todo[k] == e;
    var events := Events(intervals);
    assert events[|done|] == todo[0] && events[|done| + k] == e;
  }

  lemma AscendingTail(cuts: seq<real>)
    requires cuts != [] && Ascending(cuts)
    ensures Ascending(cuts[1..])
  {
  }

  lemma NextCut(intervals: seq<Interval>, done: seq<Event>, todo: seq<Event>, p: real, cuts: seq<real>)
    requires Aligned(intervals, done, todo, p, cuts) && cuts != [] && (todo != [] ==> todo[0].time != p)
    ensures Aligned(intervals, done, todo, cuts[0], cuts[1..])
    ensures p <= cuts[0] && forall e <- todo :: e.time >= cuts[0]
  {
    hide Events;
    var c := cuts[0];
    assert ([p] + cuts)[1..] == [c] + cuts[1..];
    AscendingTail([p] + cuts);
    assert p == ([p] + cuts)[0] && c == ([p] + cuts)[1];
    forall e <- todo ensures e.time >= c { LaterEvent(intervals, done, todo, p, cuts, e); }
    forall e <- todo ensures e.time == c || e.time in cuts[1..] {
      if e.time == p { assert e.time == c; }
    }
  }

  lemma NextSegment(intervals: seq<Interval>, done: seq<Event>, todo: seq<Event>, p: real, cuts: seq<real>)
    requires Forward(intervals) && Aligned(intervals, done, todo, p, cuts) && cuts != []
             && (todo != [] ==> todo[0].time != p)
    ensures var c := cuts[0];
            Swept(todo, Sum(done), p)
            == (if Depth(intervals, (p + c) / 2.0) >= 2 then c - p else 0.0) + Swept(todo, Sum(done), c)
  {
    hide Events, Depth;
    var c := cuts[0];
    NextCut(intervals, done, todo, p, cuts);
    if p < c { RunningCountIsDepth(intervals, done, todo, p, c, (p + c) / 2.0); }
    if todo == [] {
      assert done == Events(intervals);
      BalancedAtTheEnd(intervals);
    } else {
      SweptFrom(todo, Sum(done), p, c);
    }
  }

  lemma NothingLeft(intervals: seq<Interval>, done: seq<Event>, todo: seq<Event>, p: real)
    requires Aligned(intervals, done, todo, p, []) && (todo != [] ==> todo[0].time != p)
    ensures todo == []
  {
    hide Events;
  }

  /** The sweep and the cuts side by side. */
  lemma {:induction false} SideBySide(intervals: seq<Interval>, done: seq<Event>, todo: seq<Event>, p: real,
                                      cuts: seq<real>)
    requires Forward(intervals) && Aligned(intervals, done, todo, p, cuts)
    ensures Swept(todo, Sum(done), p) == TwiceCovered(intervals, [p] + cuts)
    decreases |todo| + |cuts|
  {
    hide Forward, Aligned, Sum, Depth;
    if todo != [] && todo[0].time == p {
      NextEvent(intervals, done, todo, p, cuts);
      SideBySide(intervals, done + [todo[0]], todo[1..], p, cuts);
    } else if cuts != [] {
      NextSegment(intervals, done, todo, p, cuts);
      NextCut(intervals, done, todo, p, cuts);
      assert ([p] + cuts)[1..] == cuts == [cuts[0]] + cuts[1..];
      SideBySide(intervals, done, todo, cuts[0], cuts[1..]);
    } else {
      NothingLeft(intervals, done, todo, p);
    }
  }

  lemma SweptIsTwiceCovered(intervals: seq<Interval>, cuts: seq<real>)
    requires Forward(intervals) && Cuts(intervals, cuts)
    ensures Swept(Events(intervals), 0, 0.0) == TwiceCovered(intervals, cuts)
  {
    var events := Events(intervals);
    EventsInOrder(intervals);
    if cuts == [] {
      assert intervals == [];
    } else {
      var p := cuts[0];
      assert cuts == [p] + cuts[1..];
      forall e <- events ensures e.time == p || e.time in cuts[1..] { EventsAtEndpoints(intervals, e); }
      assert [] + events == events;
      SideBySide(intervals, [], events, p, cuts[1..]);
      if events != [] { SweptFrom(events, 0, 0.0, p); }
    }
  }

  /**
   The sweep returns the length of time covered at least twice, whichever list of cuts that
   length is read off, and so whatever the order of the intervals.
   */
  method Overlap(intervals: seq<Interval>) returns (total: real)
    requires Forward(intervals)
    ensures forall cuts :: Cuts(intervals, cuts) ==> total == TwiceCovered(intervals, cuts)
  {
    hide Cuts, TwiceCovered;
    var events := Events(intervals);
    var active, previous := 0, 0.0;
    total := 0.0;
    for k := 0 to |events|
      invariant total + Swept(events[k..], active, previous) == Swept(events, 0, 0.0)
    {
      assert events[k..][1..] == events[k + 1..];
      if active >= 2 { total := total + (events[k].time - previous); }
      active := active + events[k].change;
      previous := events[k].time;
    }
    assert events[|events|..] == [];
    forall cuts | Cuts(intervals, cuts) ensures total == TwiceCovered(intervals, cuts) {
      SweptIsTwiceCovered(intervals, cuts);
    }
  }

  // ----- the order of the intervals

  lemma {:induction false} DepthConcat(a: seq<Interval>, b: seq<Interval>, t: real)
    ensures Depth(a + b, t) == Depth(a, t) + Depth(b, t)
  {
    if a == [] {
      assert a + b == b;
    } else {
      DepthConcat(a[1..], b, t);
      assert (a + b)[1..] == a[1..] + b;
    }
  }

  lemma WithoutOne(v: Interval, rest: seq<Interval>, left: seq<Interval>, right: seq<Interval>)
    requires multiset([v] + rest) == multiset(left + ([v] + right))
    ensures multiset(rest) == multiset(left + right)
  {
    assert multiset([v] + rest) - multiset{v} == multiset(rest);
    assert multiset(left + ([v] + right)) == multiset(left + right) + multiset{v};
  }

  lemma {:induction false} DepthPermutes(intervals: seq<Interval>, other: seq<Interval>, t: real)
    requires multiset(intervals) == multiset(other)
    ensures Depth(intervals, t) == Depth(other, t)
  {
    if intervals == [] {
      SameMultiset(intervals, other);
    } else {
      var v, rest := intervals[0], intervals[1..];
      assert intervals == [v] + rest;
      assert v in multiset(other);
      var j :| 0 <= j < |other| && other[j] == v;
      var left, right := other[..j], other[j + 1..];
      assert other == left + ([v] + right);
      WithoutOne(v, rest, left, right);
      DepthPermutes(rest, left + right, t);
      DepthConcat(left, right, t);
      DepthConcat(left, [v] + right, t);
      DepthConcat([v], right, t);
      DepthConcat([v], rest, t);
    }
  }

  /** The same intervals in another order have the same cuts and the same length covered twice. */
  lemma {:induction false} OrderIsIrrelevant(intervals: seq<Interval>, other: seq<Interval>, cuts: seq<real>)
    requires multiset(intervals) == multiset(other)
    ensures Cuts(intervals, cuts) <==> Cuts(other, cuts)
    ensures TwiceCovered(intervals, cuts) == TwiceCovered(other, cuts)
  {
    SameMultiset(intervals, other);
    if |cuts| >= 2 {
      DepthPermutes(intervals, other, (cuts[0] + cuts[1]) / 2.0);
      OrderIsIrrelevant(intervals, other, cuts[1..]);
    }
  }
}
