/**
 What the bounded walks say about the whole reachable graph: when an element is absent, when
 a selector is unique, and when a lease can be lost.
 */
module Reachability {
  import Collections
  import opened Outcomes
  import opened Traversal
  import opened Observation

  /** There is a walk of exactly `steps` edges from a to b. */
  ghost predicate Walk(g: Graph, a: Element, b: Element, steps: nat)
    decreases steps
  {
    if steps == 0 then a == b else exists m :: Walk(g, a, m, steps - 1) && b in Children(g, m)
  }

  ghost predicate Reachable(g: Graph, a: Element, b: Element) {
    exists steps: nat :: Walk(g, a, b, steps)
  }

  /** Every item lies at the end of a walk as long as its depth. */
  ghost predicate Walked(g: Graph, root: Element, items: seq<Item>) {
    forall i :: 0 <= i < |items| ==> Walk(g, root, items[i].element, items[i].depth)
  }

  /** Every child of a visited element is visited or queued. */
  ghost predicate Covered(g: Graph, work: seq<Item>, visits: seq<Item>) {
    forall i, c :: 0 <= i < |visits| && c in Children(g, visits[i].element) ==> Seen(visits, c) || Seen(work, c)
  }

  lemma {:induction false} ClosedUnderWalks(g: Graph, visits: seq<Item>, a: Element, b: Element, steps: nat)
    requires Covered(g, [], visits) && Seen(visits, a) && Walk(g, a, b, steps)
    ensures Seen(visits, b)
    decreases steps
  {
    if steps > 0 {
      var m :| Walk(g, a, m, steps - 1) && b in Children(g, m);
      ClosedUnderWalks(g, visits, a, m, steps - 1);
      var i :| 0 <= i < |visits| && visits[i].element == m;
      assert b in Children(g, visits[i].element);
    }
  }

  lemma BelowWalked(g: Graph, caps: Caps, root: Element, item: Item)
    requires Walk(g, root, item.element, item.depth)
    ensures Walked(g, root, Below(g, caps, item))
  {
    var next := Below(g, caps, item);
    forall i | 0 <= i < |next| ensures Walk(g, root, next[i].element, next[i].depth) {
      assert next[i].element == Offered(g, caps, item.element)[i];
      assert next[i].element in Children(g, item.element);
    }
  }

  /** An item that is not cut offers all its children. */
  lemma BelowComplete(g: Graph, caps: Caps, item: Item, c: Element)
    requires !Cut(g, caps, item) && c in Children(g, item.element)
    ensures Seen(Below(g, caps, item), c)
  {
    var i :| 0 <= i < |Children(g, item.element)| && Children(g, item.element)[i] == c;
    assert Below(g, caps, item)[i].element == c;
  }

  lemma AppendWalked(g: Graph, root: Element, breadthFirst: bool, work: seq<Item>, next: seq<Item>)
    requires Walked(g, root, work) && Walked(g, root, next)
    ensures Walked(g, root, Append(breadthFirst, work, next))
  {
  }

  lemma AppendQueued(breadthFirst: bool, work: seq<Item>, next: seq<Item>, e: Element)
    requires Seen(work, e) || Seen(next, e)
    ensures Seen(Append(breadthFirst, work, next), e)
  {
    var all := Append(breadthFirst, work, next);
    if Seen(work, e) {
      var i :| 0 <= i < |work| && work[i].element == e;
      assert all[i].element == e;
    } else {
      var i :| 0 <= i < |next| && next[i].element == e;
      assert all[|work| + if breadthFirst then i else |next| - 1 - i].element == e;
    }
  }

  lemma StillQueued(breadthFirst: bool, work: seq<Item>, e: Element)
    requires work != []
    ensures Seen(work, e) <==> Seen(Rest(breadthFirst, work), e) || Head(breadthFirst, work).element == e
  {
    var rest := Rest(breadthFirst, work);
    if Seen(work, e) && Head(breadthFirst, work).element != e {
      var i :| 0 <= i < |work| && work[i].element == e;
      assert rest[if breadthFirst then i - 1 else i].element == e;
    }
    if Seen(rest, e) {
      var i :| 0 <= i < |rest| && rest[i].element == e;
      assert work[if breadthFirst then i + 1 else i].element == e;
    }
  }

  /** Taking an already seen item off the worklist loses nothing. */
  lemma SkipCovers(g: Graph, breadthFirst: bool, work: seq<Item>, visits: seq<Item>)
    requires work != [] && Covered(g, work, visits) && Seen(visits, Head(breadthFirst, work).element)
    ensures Covered(g, Rest(breadthFirst, work), visits)
  {
    var rest := Rest(breadthFirst, work);
    forall i, c | 0 <= i < |visits| && c in Children(g, visits[i].element) ensures Seen(visits, c) || Seen(rest, c) {
      StillQueued(breadthFirst, work, c);
    }
  }

  /** Visiting an item that is not cut queues all its children. */
  lemma VisitCovers(g: Graph, caps: Caps, breadthFirst: bool, work: seq<Item>, visits: seq<Item>)
    requires work != [] && Covered(g, work, visits) && !Cut(g, caps, Head(breadthFirst, work))
    ensures var item, rest := Head(breadthFirst, work), Rest(breadthFirst, work);
            Covered(g, Append(breadthFirst, rest, Below(g, caps, item)), visits + [item])
  {
    hide Cut, Below, Append;
    var item, rest := Head(breadthFirst, work), Rest(breadthFirst, work);
    var work' := Append(breadthFirst, rest, Below(g, caps, item));
    var visits' := visits + [item];
    forall i, c | 0 <= i < |visits'| && c in Children(g, visits'[i].element)
      ensures Seen(visits', c) || Seen(work', c) {
      SeenAppend(visits, item, c);
      if i == |visits| {
        BelowComplete(g, caps, item, c);
        AppendQueued(breadthFirst, rest, Below(g, caps, item), c);
      } else if !Seen(visits, c) {
        assert Seen(work, c);
        StillQueued(breadthFirst, work, c);
        if Seen(rest, c) { AppendQueued(breadthFirst, rest, Below(g, caps, item), c); }
      }
    }
  }

  /** An unstopped search visits all that is queued, and ends closed under children. */
  lemma {:induction false} UnstoppedSearchCloses(g: Graph, caps: Caps, breadthFirst: bool, work: seq<Item>,
                                                 visits: seq<Item>)
    requires |visits| <= caps.nodes && Covered(g, work, visits) && !Stopped(g, caps, breadthFirst, work, visits)
    ensures var all := Search(g, caps, breadthFirst, work, visits);
            Covered(g, [], all) && forall e :: Seen(work, e) ==> Seen(all, e)
    decreases caps.nodes - |visits|, |work|
  {
    var all := Search(g, caps, breadthFirst, work, visits);
    if work != [] {
      hide Covered, Append, Below, Seen;
      var item, rest := Head(breadthFirst, work), Rest(breadthFirst, work);
      if Seen(visits, item.element) {
        SkipCovers(g, breadthFirst, work, visits);
        UnstoppedSearchCloses(g, caps, breadthFirst, rest, visits);
        SearchExtends(g, caps, breadthFirst, rest, visits);
        SeenPrefix(visits, all, item.element);
      } else {
        var work' := Append(breadthFirst, rest, Below(g, caps, item));
        VisitCovers(g, caps, breadthFirst, work, visits);
        UnstoppedSearchCloses(g, caps, breadthFirst, work', visits + [item]);
        SearchExtends(g, caps, breadthFirst, work', visits + [item]);
        SeenAppend(visits, item, item.element);
        SeenPrefix(visits + [item], all, item.element);
      }
      forall e | Seen(work, e) ensures Seen(all, e) {
        StillQueued(breadthFirst, work, e);
        if Seen(rest, e) && !Seen(visits, item.element) {
          AppendQueued(breadthFirst, rest, Below(g, caps, item), e);
        }
      }
    }
  }

  /** A search visits reachable elements only. */
  lemma {:induction false} SearchStaysReachable(g: Graph, caps: Caps, breadthFirst: bool, root: Element,
                                                work: seq<Item>, visits: seq<Item>)
    requires |visits| <= caps.nodes && Walked(g, root, work) && Walked(g, root, visits)
    ensures Walked(g, root, Search(g, caps, breadthFirst, work, visits))
    decreases caps.nodes - |visits|, |work|
  {
    if work != [] {
      hide Below, Append;
      var item, rest := Head(breadthFirst, work), Rest(breadthFirst, work);
      if Seen(visits, item.element) {
        SearchStaysReachable(g, caps, breadthFirst, root, rest, visits);
      } else if |visits| < caps.nodes {
        BelowWalked(g, caps, root, item);
        AppendWalked(g, root, breadthFirst, rest, Below(g, caps, item));
        SearchStaysReachable(g, caps, breadthFirst, root, Append(breadthFirst, rest, Below(g, caps, item)),
                             visits + [item]);
      }
    }
  }

  /** What the answers of LocateElement mean for the whole graph: only an unreachable target is reported absent. */
  lemma LocatedMeans(g: Graph, caps: Caps, root: Element, target: Element, breadthFirst: bool)
    ensures Seen(Search(g, caps, breadthFirst, [Item(root, 0)], []), target) ==> Reachable(g, root, target)
    ensures !Stopped(g, caps, breadthFirst, [Item(root, 0)], []) ==>
              (Seen(Search(g, caps, breadthFirst, [Item(root, 0)], []), target) <==> Reachable(g, root, target))
  {
    var start := [Item(root, 0)];
    var all := Search(g, caps, breadthFirst, start, []);
    assert Walked(g, root, start);
    SearchStaysReachable(g, caps, breadthFirst, root, start, []);
    if !Stopped(g, caps, breadthFirst, start, []) && Reachable(g, root, target) {
      var steps: nat :| Walk(g, root, target, steps);
      UnstoppedSearchCloses(g, caps, breadthFirst, start, []);
      assert start[0].element == root && Seen(start, root);
      ClosedUnderWalks(g, all, root, target, steps);
    }
  }

  /** The tree builder visits reachable elements only. */
  lemma {:induction false} BuildStaysReachable(v: View, caps: Caps, root: Element, item: Item, st: Built)
    requires |st.visits| <= caps.nodes && Walked(v.graph, root, st.visits)
             && Walk(v.graph, root, item.element, item.depth)
    ensures Walked(v.graph, root, Build(v, caps, item, st).visits)
    decreases caps.nodes - |st.visits|, 0
  {
    if |st.visits| < caps.nodes && !Seen(st.visits, item.element) && Fits(v, item.element, st.bytes) {
      hide Below, Walk;
      BelowWalked(v.graph, caps, root, item);
      BuildAllStaysReachable(v, caps, root, Below(v.graph, caps, item), Followed(v, caps, item, st));
    }
  }

  lemma {:induction false} BuildAllStaysReachable(v: View, caps: Caps, root: Element, items: seq<Item>, st: Built)
    requires |st.visits| <= caps.nodes && Walked(v.graph, root, st.visits) && Walked(v.graph, root, items)
    ensures Walked(v.graph, root, BuildAll(v, caps, items, st).visits)
    decreases caps.nodes - |st.visits|, |items|
  {
    if items != [] && |st.visits| < caps.nodes {
      hide Build, Walk;
      BuildStaysReachable(v, caps, root, items[0], st);
      BuildAllStaysReachable(v, caps, root, items[1..], Build(v, caps, items[0], st));
    }
  }

  /** Every element leased by a tree observation is reachable from the root, whatever was dropped. */
  lemma LeasedIsReachable(v: View, caps: Caps, root: Element, e: Element)
    requires e in Tree(v, caps, root).leased
    ensures Reachable(v.graph, root, e)
  {
    hide Build;
    LeasedWasVisited(v, caps, Item(root, 0), NOTHING);
    BuildStaysReachable(v, caps, root, Item(root, 0), NOTHING);
    var visits := Tree(v, caps, root).visits;
    var i :| 0 <= i < |visits| && visits[i].element == e;
    assert Walk(v.graph, root, e, visits[i].depth);
  }

  /** So a leased element of an unchanged window is found or reported over the limit, and never absent. */
  lemma LeasedIsNeverAbsent(v: View, caps: Caps, root: Element, e: Element)
    requires e in Tree(v, caps, root).leased
    ensures var start := [Item(root, 0)];
            Seen(Search(v.graph, caps, false, start, []), e) || Stopped(v.graph, caps, false, start, [])
  {
    LeasedIsReachable(v, caps, root, e);
    LocatedMeans(v.graph, caps, root, e, false);
  }

  // ----- the exhaustive selector scan

  datatype Uniqueness = Confirmed | Ambiguous | TargetChanged | TreeLimit

  /** The element's distance from the root: a walk is as long, and none is shorter. */
  ghost predicate Nearest(g: Graph, root: Element, e: Element, distance: nat) {
    Walk(g, root, e, distance) && forall k: nat :: k < distance ==> !Walk(g, root, e, k)
  }

  /** So many elements are reachable, or more. */
  ghost predicate Reaches(g: Graph, root: Element, count: nat) {
    exists es: set<Element> :: |es| == count && forall e <- es :: Reachable(g, root, e)
  }

  /** An element has too many children, or any at all at the depth cap, counted by its distance. */
  ghost predicate Spills(g: Graph, caps: Caps, root: Element) {
    exists e, d: nat :: d <= caps.depth && Nearest(g, root, e, d) && Cut(g, caps, Item(e, d))
  }

  /** The graph is beyond the caps of a scan: too many elements, too many children, or too deep. */
  ghost predicate Oversized(g: Graph, caps: Caps, root: Element) {
    Reaches(g, root, caps.nodes) || Spills(g, caps, root)
  }

  /** The graph is within the caps of a scan. */
  ghost predicate Contained(g: Graph, caps: Caps, root: Element) {
    !Reaches(g, root, caps.nodes + 1) && !Spills(g, caps, root)
  }

  // ----- a breadth-first scan comes to every element at its distance

  /** The element is among the items, no deeper than this. */
  ghost predicate Within(items: seq<Item>, e: Element, depth: nat) {
    exists i :: 0 <= i < |items| && items[i].element == e && items[i].depth <= depth
  }

  /**
   The queue's depths ascend over at most one layer, beyond the visits; every child of a visit is
   visited or queued at most one deeper, and the root at 0.
   */
  ghost predicate Layered(g: Graph, root: Element, work: seq<Item>, visits: seq<Item>) {
    && (forall i, j :: 0 <= i <= j < |work| ==> work[i].depth <= work[j].depth <= work[i].depth + 1)
    && (forall v, i :: 0 <= v < |visits| && 0 <= i < |work| ==> visits[v].depth <= work[i].depth)
    && (forall v, c :: 0 <= v < |visits| && c in Children(g, visits[v].element) ==>
          Within(visits, c, visits[v].depth + 1) || Within(work, c, visits[v].depth + 1))
    && (Within(visits, root, 0) || Within(work, root, 0))
  }

  lemma WithinParts(a: seq<Item>, b: seq<Item>, e: Element, depth: nat)
    ensures Within(a + b, e, depth) <==> Within(a, e, depth) || Within(b, e, depth)
  {
    var all := a + b;
    if i :| 0 <= i < |all| && all[i].element == e && all[i].depth <= depth {
      assert if i < |a| then a[i] == all[i] else b[i - |a|] == all[i];
    }
    if i :| 0 <= i < |a| && a[i].element == e && a[i].depth <= depth { assert all[i] == a[i]; }
    if i :| 0 <= i < |b| && b[i].element == e && b[i].depth <= depth { assert all[|a| + i] == b[i]; }
  }

  lemma LayeredSkip(g: Graph, root: Element, work: seq<Item>, visits: seq<Item>)
    requires work != [] && Layered(g, root, work, visits) && Seen(visits, work[0].element)
    ensures Layered(g, root, work[1..], visits)
  {
    var i :| 0 <= i < |visits| && visits[i].element == work[0].element;
    assert [work[0]] + work[1..] == work;
    forall e, depth | Within(work, e, depth) ensures Within(visits, e, depth) || Within(work[1..], e, depth) {
      WithinParts([work[0]], work[1..], e, depth);
      if Within([work[0]], e, depth) { assert visits[i].depth <= work[0].depth; }
    }
    hide Within;
  }

  lemma LayeredVisit(g: Graph, caps: Caps, root: Element, work: seq<Item>, visits: seq<Item>)
    requires work != [] && Layered(g, root, work, visits) && !Cut(g, caps, work[0])
    ensures Layered(g, root, work[1..] + Below(g, caps, work[0]), visits + [work[0]])
  {
    var item, rest, next := work[0], work[1..], Below(g, caps, work[0]);
    assert [item] + rest == work;
    forall i | 0 <= i < |next| ensures next[i].depth == item.depth + 1 {}
    forall e, depth
      ensures Within(work, e, depth) || Within(visits, e, depth)
              ==> Within(rest + next, e, depth) || Within(visits + [item], e, depth) {
      WithinParts([item], rest, e, depth);
      WithinParts(rest, next, e, depth);
      WithinParts(visits, [item], e, depth);
    }
    forall c | c in Children(g, item.element) ensures Within(rest + next, c, item.depth + 1) {
      BelowComplete(g, caps, item, c);
      WithinParts(rest, next, c, item.depth + 1);
    }
    hide Within, Below, Cut;
  }

  /** Whatever is nearer than the head of the queue was visited. */
  lemma {:induction false} NearerIsVisited(g: Graph, root: Element, work: seq<Item>, visits: seq<Item>, e: Element,
                                           k: nat)
    requires work != [] && Layered(g, root, work, visits) && Walk(g, root, e, k) && k < work[0].depth
    ensures Within(visits, e, k)
    decreases k
  {
    if k == 0 {
    } else {
      var m :| Walk(g, root, m, k - 1) && e in Children(g, m);
      NearerIsVisited(g, root, work, visits, m, k - 1);
      var v :| 0 <= v < |visits| && visits[v].element == m && visits[v].depth <= k - 1;
      var d := visits[v].depth + 1;
      assert Within(visits, e, d) || Within(work, e, d);
    }
  }

  /** So an unvisited head lies at its distance. */
  lemma HeadIsNearest(g: Graph, root: Element, work: seq<Item>, visits: seq<Item>)
    requires work != [] && Layered(g, root, work, visits) && Walked(g, root, work)
    requires !Seen(visits, work[0].element)
    ensures Nearest(g, root, work[0].element, work[0].depth)
  {
    forall k: nat | k < work[0].depth ensures !Walk(g, root, work[0].element, k) {
      if Walk(g, root, work[0].element, k) { NearerIsVisited(g, root, work, visits, work[0].element, k); }
    }
  }

  /** Every visit lies at its distance and offered all its children. */
  ghost predicate Exact(g: Graph, caps: Caps, root: Element, visits: seq<Item>) {
    forall i :: 0 <= i < |visits| ==>
      Nearest(g, root, visits[i].element, visits[i].depth) && !Cut(g, caps, visits[i])
  }

  lemma NearestIsOne(g: Graph, root: Element, e: Element, d: nat, d': nat)
    requires Nearest(g, root, e, d) && Nearest(g, root, e, d')
    ensures d == d'
  {
  }

  /** A scan that visited all there is, exactly, was within its caps. */
  lemma ExactIsContained(g: Graph, caps: Caps, root: Element, visits: seq<Item>, elements: set<Element>)
    requires Exact(g, caps, root, visits) && |elements| <= caps.nodes
    requires forall e :: Reachable(g, root, e) ==> Seen(visits, e) && e in elements
    ensures Contained(g, caps, root)
  {
    forall e, d: nat | d <= caps.depth && Nearest(g, root, e, d) ensures !Cut(g, caps, Item(e, d)) {
      assert Reachable(g, root, e);
      var i :| 0 <= i < |visits| && visits[i].element == e;
      NearestIsOne(g, root, e, d, visits[i].depth);
      assert visits[i] == Item(e, d);
    }
    if es: set<Element> :| |es| == caps.nodes + 1 && forall e <- es :: Reachable(g, root, e) {
      Collections.SubsetSize(es, elements);
    }
  }

  // ----- the scan

  /** A scan of these visits has met at most this one matching element. */
  ghost predicate OnlyMatch(visits: seq<Item>, matching: set<Element>, found: Option<Element>) {
    forall e <- matching :: Seen(visits, e) <==> found == Some(e)
  }

  lemma ScanStart(g: Graph, caps: Caps, root: Element, matching: set<Element>)
    ensures Walked(g, root, [Item(root, 0)]) && Covered(g, [Item(root, 0)], []) && Seen([Item(root, 0)], root)
    ensures OnlyMatch([], matching, None) && forall e :: !Seen([], e)
    ensures Layered(g, root, [Item(root, 0)], []) && Exact(g, caps, root, [])
  {
    assert [Item(root, 0)][0].element == root;
  }

  lemma WalkedHead(g: Graph, root: Element, work: seq<Item>)
    requires work != [] && Walked(g, root, work)
    ensures Walk(g, root, work[0].element, work[0].depth) && Reachable(g, root, work[0].element)
    ensures Walked(g, root, work[1..])
  {
  }

  lemma BelowShallow(g: Graph, caps: Caps, item: Item)
    ensures forall i :: 0 <= i < |Below(g, caps, item)| ==> Below(g, caps, item)[i].depth <= caps.depth
  {
  }

  lemma ClosedIsReachable(g: Graph, visits: seq<Item>, root: Element, e: Element)
    requires Covered(g, [], visits) && Seen(visits, root) && Reachable(g, root, e)
    ensures Seen(visits, e)
  {
    var steps: nat :| Walk(g, root, e, steps);
    ClosedUnderWalks(g, visits, root, e, steps);
  }

  /** The scan from these visits on, with the matching element found so far. */
  function Scan(g: Graph, caps: Caps, selected: Element, matching: set<Element>, work: seq<Item>, visits: seq<Item>,
                found: Option<Element>): Uniqueness
    requires |visits| <= caps.nodes
    decreases caps.nodes - |visits|, |work|
  {
    if work == [] then if found == Some(selected) then Confirmed else TargetChanged
    else if |visits| == caps.nodes then TreeLimit
    else if Seen(visits, work[0].element) then Scan(g, caps, selected, matching, work[1..], visits, found)
    else if work[0].element in matching && found.Some? then Ambiguous
    else if Cut(g, caps, work[0]) then TreeLimit
    else
      Scan(g, caps, selected, matching, work[1..] + Below(g, caps, work[0]), visits + [work[0]],
           if work[0].element in matching then Some(work[0].element) else found)
  }

  /** The element is the only reachable one that the selector describes. */
  ghost predicate Only(g: Graph, root: Element, matching: set<Element>, element: Element) {
    forall e :: Reachable(g, root, e) && e in matching <==> e == element
  }

  /** What each answer says of the whole reachable graph. */
  ghost predicate Justified(g: Graph, caps: Caps, root: Element, selected: Element, matching: set<Element>,
                            r: Uniqueness)
  {
    match r
    case Confirmed => Only(g, root, matching, selected) && Contained(g, caps, root)
    case Ambiguous =>
      exists a, b :: a != b && a in matching && b in matching && Reachable(g, root, a) && Reachable(g, root, b)
    case TargetChanged =>
      && Contained(g, caps, root)
      && !(Reachable(g, root, selected) && selected in matching)
      && forall a <- matching, b <- matching :: Reachable(g, root, a) && Reachable(g, root, b) ==> a == b
    case TreeLimit => Oversized(g, caps, root)
  }

  /** The scan has come this far: its queue is walked, its visits are these elements, and so is what they match. */
  ghost predicate Scanned(g: Graph, caps: Caps, root: Element, matching: set<Element>, work: seq<Item>,
                          visits: seq<Item>, found: Option<Element>, elements: set<Element>)
  {
    && Walked(g, root, work) && Covered(g, work, visits)
    && Layered(g, root, work, visits) && Exact(g, caps, root, visits)
    && (Seen(visits, root) || Seen(work, root))
    && (forall i :: 0 <= i < |work| ==> work[i].depth <= caps.depth)
    && |elements| == |visits| && (forall e :: e in elements <==> Seen(visits, e))
    && (forall e <- elements :: Reachable(g, root, e))
    && OnlyMatch(visits, matching, found) && (found.Some? ==> found.value in matching)
  }

  lemma ScanSkips(g: Graph, caps: Caps, root: Element, matching: set<Element>, work: seq<Item>, visits: seq<Item>,
                  found: Option<Element>, elements: set<Element>)
    requires work != [] && Scanned(g, caps, root, matching, work, visits, found, elements)
    requires Seen(visits, work[0].element)
    ensures Scanned(g, caps, root, matching, work[1..], visits, found, elements)
  {
    hide Seen, Reachable, Covered, Walked, Layered, Exact;
    assert Head(true, work) == work[0] && Rest(true, work) == work[1..];
    LayeredSkip(g, root, work, visits);
    WalkedHead(g, root, work);
    StillQueued(true, work, root);
    SkipCovers(g, true, work, visits);
  }

  lemma ScanVisits(g: Graph, caps: Caps, root: Element, matching: set<Element>, work: seq<Item>, visits: seq<Item>,
                   found: Option<Element>, elements: set<Element>)
    requires work != [] && Scanned(g, caps, root, matching, work, visits, found, elements)
    requires !Seen(visits, work[0].element) && !(work[0].element in matching && found.Some?) && !Cut(g, caps, work[0])
    ensures Scanned(g, caps, root, matching, work[1..] + Below(g, caps, work[0]), visits + [work[0]],
                    if work[0].element in matching then Some(work[0].element) else found, elements + {work[0].element})
  {
    hide Seen, Below, Cut, Reachable, Covered, Walked, Layered, Nearest;
    var item, rest, next := work[0], work[1..], Below(g, caps, work[0]);
    HeadIsNearest(g, root, work, visits);
    LayeredVisit(g, caps, root, work, visits);
    assert Exact(g, caps, root, visits + [item]);
    hide Exact;
    assert Head(true, work) == item && Rest(true, work) == rest && Append(true, rest, next) == rest + next;
    WalkedHead(g, root, work);
    StillQueued(true, work, root);
    forall e ensures Seen(visits + [item], e) <==> Seen(visits, e) || item.element == e {
      SeenAppend(visits, item, e);
    }
    VisitCovers(g, caps, true, work, visits);
    BelowShallow(g, caps, item);
    BelowWalked(g, caps, root, item);
    AppendWalked(g, root, true, rest, next);
    if Seen(rest, root) { AppendQueued(true, rest, next, root); }
  }

  /** Wherever a scan has come, its answer is justified. */
  lemma {:induction false} ScanJustified(g: Graph, caps: Caps, root: Element, selected: Element, matching: set<Element>,
                                         work: seq<Item>, visits: seq<Item>, found: Option<Element>,
                                         elements: set<Element>)
    requires |visits| <= caps.nodes && Scanned(g, caps, root, matching, work, visits, found, elements)
    ensures Justified(g, caps, root, selected, matching, Scan(g, caps, selected, matching, work, visits, found))
    decreases caps.nodes - |visits|, |work|
  {
    hide Seen, Below, Cut, Reachable, Covered, Walked, Layered, Exact, Contained, Nearest;
    if work == [] {
      forall e ensures Reachable(g, root, e) <==> Seen(visits, e) {
        NothingSeen(root);
        if Reachable(g, root, e) { ClosedIsReachable(g, visits, root, e); }
      }
      ExactIsContained(g, caps, root, visits, elements);
    } else if |visits| < caps.nodes {
      WalkedHead(g, root, work);
      if !Seen(visits, work[0].element) { HeadIsNearest(g, root, work, visits); }
      if Seen(visits, work[0].element) {
        ScanSkips(g, caps, root, matching, work, visits, found, elements);
        ScanJustified(g, caps, root, selected, matching, work[1..], visits, found, elements);
      } else if !(work[0].element in matching && found.Some?) && !Cut(g, caps, work[0]) {
        ScanVisits(g, caps, root, matching, work, visits, found, elements);
        ScanJustified(g, caps, root, selected, matching, work[1..] + Below(g, caps, work[0]), visits + [work[0]],
                      if work[0].element in matching then Some(work[0].element) else found,
                      elements + {work[0].element});
      }
    }
  }

  /** What the scan of a selector answers: `matching` are the elements that the selector describes. */
  function UniqueIn(g: Graph, caps: Caps, root: Element, selected: Element, matching: set<Element>): Uniqueness {
    Scan(g, caps, selected, matching, [Item(root, 0)], [], None)
  }

  lemma UniqueInJustified(g: Graph, caps: Caps, root: Element, selected: Element, matching: set<Element>)
    ensures Justified(g, caps, root, selected, matching, UniqueIn(g, caps, root, selected, matching))
  {
    ScanStart(g, caps, root, matching);
    ScanJustified(g, caps, root, selected, matching, [Item(root, 0)], [], None, {});
  }

  /** A unique match is confirmed, unless the graph is beyond the caps of the scan. */
  lemma UniqueIsConfirmed(g: Graph, caps: Caps, root: Element, selected: Element, matching: set<Element>)
    requires !Oversized(g, caps, root) && Only(g, root, matching, selected)
    ensures UniqueIn(g, caps, root, selected, matching) == Confirmed
  {
    hide UniqueIn, Oversized, Reachable;
    UniqueInJustified(g, caps, root, selected, matching);
    assert selected in matching && Reachable(g, root, selected);
  }

  /** Proves a selector unique. */
  method VerifyUniqueSelector(g: Graph, caps: Caps, root: Element, selected: Element, matching: set<Element>)
    returns (r: Uniqueness)
    ensures r == UniqueIn(g, caps, root, selected, matching)
    ensures Justified(g, caps, root, selected, matching, r)
  {
    hide Seen, Below, Cut, Justified;
    UniqueInJustified(g, caps, root, selected, matching);
    var visited: seq<Item> := [];
    var queue := [Item(root, 0)];
    var cursor := 0;
    var found: Option<Element> := None;
    while cursor < |queue|
      invariant 0 <= cursor <= |queue| && |visited| <= caps.nodes
      invariant Scan(g, caps, selected, matching, queue[cursor..], visited, found)
                == UniqueIn(g, caps, root, selected, matching)
      decreases caps.nodes - |visited|, |queue| - cursor
    {
      if |visited| >= caps.nodes { return TreeLimit; }
      ghost var work := queue[cursor..];
      var item := queue[cursor];
      cursor := cursor + 1;
      assert work[0] == item && work[1..] == queue[cursor..];
      if Seen(visited, item.element) { continue; }
      visited := visited + [item];
      if item.element in matching {
        if found.Some? { return Ambiguous; }
        found := Some(item.element);
      }
      if Cut(g, caps, item) { return TreeLimit; }
      ghost var before := queue;
      queue := queue + Below(g, caps, item);
      assert queue[cursor..] == before[cursor..] + Below(g, caps, item);
    }
    assert queue[cursor..] == [];
    if found != Some(selected) { return TargetChanged; }
    r := Confirmed;
  }

  /** Two elements that are each other's child. */
  const LOOP: Graph := map[0 := [1], 1 := [0]]

  lemma {:induction false} LoopReaches(e: Element, k: nat)
    requires Walk(LOOP, 0, e, k)
    ensures e == k % 2
    decreases k
  {
    if k == 0 {
    } else {
      var m :| Walk(LOOP, 0, m, k - 1) && e in Children(LOOP, m);
      LoopReaches(m, k - 1);
    }
  }

  /** A cycle does not make a graph too deep: in this one a unique match is confirmed. */
  lemma CycleIsConfirmed()
    ensures !Oversized(LOOP, SCAN, 0) && UniqueIn(LOOP, SCAN, 0, 1, {1}) == Confirmed
  {
    assert Walk(LOOP, 0, 0, 0) && 1 in Children(LOOP, 0) && Walk(LOOP, 0, 1, 1);
    forall e | Reachable(LOOP, 0, e) ensures e == 0 || e == 1 {
      var k: nat :| Walk(LOOP, 0, e, k);
      LoopReaches(e, k);
    }
    forall e, d: nat | Nearest(LOOP, 0, e, d) ensures !Cut(LOOP, SCAN, Item(e, d)) {
      LoopReaches(e, d);
      assert d <= 1;
    }
    forall es: set<Element> | forall e <- es :: Reachable(LOOP, 0, e) ensures |es| < SCAN.nodes {
      Collections.SubsetSize(es, {0, 1});
    }
    hide Walk, Cut;
    UniqueIsConfirmed(LOOP, SCAN, 0, 1, {1});
  }

  // ----- why a dropped node matters

  /**
   A chain 1, 2, …, 9, 10, 11 below the root 0, which also holds 10 directly. Element 1 has a role so
   long that not even its shortened node fits; every other node takes 300 bytes.
   */
  const DEEP: Graph := map[0 := [1, 10], 1 := [2], 2 := [3], 3 := [4], 4 := [5], 5 := [6], 6 := [7], 7 := [8],
                           8 := [9], 9 := [10], 10 := [11]]
  const DEEP_VIEW := View(DEEP, map e: nat | e <= 11 ::
    if e == 1 then Sizes(OUTPUT_BYTES + 300, OUTPUT_BYTES + 300) else Sizes(300, 300))

  function Trail(n: nat): seq<Item> {
    seq(n, i requires 0 <= i < n => Item(i, i))
  }

  lemma TrailSeen(n: nat, e: Element)
    ensures Seen(Trail(n), e) <==> e < n
  {
    if e < n { assert Trail(n)[e].element == e; }
  }

  lemma DeepBelow(k: nat)
    requires 1 <= k <= 9
    ensures Below(DEEP, TREE, Item(k, k)) == [Item(k + 1, k + 1)]
  {
    assert Offered(DEEP, TREE, k) == [k + 1];
  }

  /** The stack search follows the chain and meets 10 first at the depth cap. */
  lemma {:induction false} DeepSearch(k: nat)
    requires 1 <= k <= 10
    ensures Search(DEEP, TREE, false, [Item(10, 1), Item(k, k)], Trail(k)) == Trail(11)
    ensures Stopped(DEEP, TREE, false, [Item(10, 1), Item(k, k)], Trail(k))
    decreases 10 - k
  {
    var work := [Item(10, 1), Item(k, k)];
    TrailSeen(k, k);
    assert Head(false, work) == Item(k, k) && Rest(false, work) == [Item(10, 1)];
    assert Trail(k) + [Item(k, k)] == Trail(k + 1);
    if k < 10 {
      DeepBelow(k);
      assert Append(false, [Item(10, 1)], [Item(k + 1, k + 1)]) == [Item(10, 1), Item(k + 1, k + 1)];
      DeepSearch(k + 1);
    } else {
      assert Below(DEEP, TREE, Item(10, 10)) == [];
      assert Append(false, [Item(10, 1)], []) == [Item(10, 1)];
      TrailSeen(11, 10);
      assert Rest(false, [Item(10, 1)]) == [];
      assert Cut(DEEP, TREE, Item(10, 10));
      assert Head(false, [Item(10, 1)]) == Item(10, 1);
      assert Search(DEEP, TREE, false, [Item(10, 1)], Trail(11)) == Search(DEEP, TREE, false, [], Trail(11));
    }
  }

  lemma DeepTree()
    ensures 11 in Tree(DEEP_VIEW, TREE, 0).leased && !Lossless(Tree(DEEP_VIEW, TREE, 0))
  {
    var v, caps := DEEP_VIEW, TREE;
    assert Below(DEEP, caps, Item(0, 0)) == [Item(1, 1), Item(10, 1)] by { assert Offered(DEEP, caps, 0) == [1, 10]; }
    assert Below(DEEP, caps, Item(10, 1)) == [Item(11, 2)] by { assert Offered(DEEP, caps, 10) == [11]; }
    assert Below(DEEP, caps, Item(11, 2)) == [];
    var a := Enter(v, Item(0, 0), NOTHING);
    NothingSeen(0);
    SeenAppend([], Item(0, 0), 1);
    NothingSeen(1);
    var b := Build(v, caps, Item(1, 1), a);
    assert b == Enter(v, Item(1, 1), a) && b.visits == [Item(0, 0), Item(1, 1)] && b.leased == [0];
    SeenAppend(a.visits, Item(1, 1), 10);
    SeenAppend([], Item(0, 0), 10);
    NothingSeen(10);
    var c := Enter(v, Item(10, 1), b);
    SeenAppend(b.visits, Item(10, 1), 11);
    SeenAppend(a.visits, Item(1, 1), 11);
    SeenAppend([], Item(0, 0), 11);
    NothingSeen(11);
    var d := Build(v, caps, Item(11, 2), c);
    assert c.leased == [0, 10] && c.bytes == 600 && Fits(v, 11, 600);
    assert d == BuildAll(v, caps, [], Followed(v, caps, Item(11, 2), c));
    assert d.leased == [0, 10, 11] && |d.visits| == 4;
    assert [Item(11, 2)][1..] == [];
    assert BuildAll(v, caps, [Item(11, 2)], c) == d;
    assert Build(v, caps, Item(10, 1), b) == d;
    assert [Item(1, 1), Item(10, 1)][1..] == [Item(10, 1)] && [Item(10, 1)][1..] == [];
    assert BuildAll(v, caps, [Item(10, 1)], b) == d;
    assert BuildAll(v, caps, [Item(1, 1), Item(10, 1)], a) == d;
  }

  /** A lease can be reported over the limit in an unchanged tree: the builder dropped 1 and leased 11 at depth 2. */
  lemma DroppedNodeLosesLease()
    ensures 11 in Tree(DEEP_VIEW, TREE, 0).leased && !Lossless(Tree(DEEP_VIEW, TREE, 0))
    ensures !Seen(Search(DEEP, TREE, false, [Item(0, 0)], []), 11) && Stopped(DEEP, TREE, false, [Item(0, 0)], [])
    ensures !Harmless(DEEP_VIEW, TREE, Item(0, 0), NOTHING)
  {
    var start := [Item(0, 0)];
    assert Offered(DEEP, TREE, 0) == [1, 10];
    assert Below(DEEP, TREE, Item(0, 0)) == [Item(1, 1), Item(10, 1)];
    assert Reverse([Item(1, 1), Item(10, 1)]) == [Item(10, 1), Item(1, 1)];
    NothingSeen(0);
    assert Trail(0) == [] && Trail(1) == [Item(0, 0)] && [] + [Item(0, 0)] == Trail(1);
    assert Append(false, [], [Item(1, 1), Item(10, 1)]) == [Item(10, 1), Item(1, 1)];
    assert Rest(false, start) == [];
    DeepSearch(1);
    TrailSeen(11, 11);
    DeepTree();
    if Harmless(DEEP_VIEW, TREE, Item(0, 0), NOTHING) { LeasedElementIsFound(DEEP_VIEW, TREE, 0, 11); }
  }
}
