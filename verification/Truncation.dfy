/**
 What the `truncated` answers of an observation and the limit answer of the search mean for the
 whole reachable graph, stated on its children and on the sizes of its nodes.
 */
module Truncation {
  import opened Traversal
  import opened Observation
  import opened Reachability

  /** A walk may follow every child of the item. */
  predicate Complete(g: Graph, caps: Caps, item: Item) {
    && |Children(g, item.element)| <= caps.children
    && (Children(g, item.element) == [] || item.depth < caps.depth)
  }

  /** A walk follows the first children of an item, up to the cap and one deeper; a cut item has others. */
  lemma OffersFirstChildren(g: Graph, caps: Caps, item: Item)
    ensures var all, below := Children(g, item.element), Below(g, caps, item);
            && |below| == (if item.depth >= caps.depth then 0 else if |all| <= caps.children then |all|
                           else caps.children)
            && (forall i :: 0 <= i < |below| ==> below[i] == Item(all[i], item.depth + 1))
            && (Cut(g, caps, item) <==> !Complete(g, caps, item))
  {
  }

  // ----- the search

  /** A search that was not stopped followed every child of every visit. */
  lemma {:induction false} UnstoppedIsComplete(g: Graph, caps: Caps, breadthFirst: bool, work: seq<Item>,
                                               visits: seq<Item>)
    requires |visits| <= caps.nodes && !Stopped(g, caps, breadthFirst, work, visits)
    requires forall i :: 0 <= i < |visits| ==> Complete(g, caps, visits[i])
    ensures forall item <- Search(g, caps, breadthFirst, work, visits) :: Complete(g, caps, item)
    decreases caps.nodes - |visits|, |work|
  {
    if work != [] {
      var item, rest := Head(breadthFirst, work), Rest(breadthFirst, work);
      if Seen(visits, item.element) {
        UnstoppedIsComplete(g, caps, breadthFirst, rest, visits);
      } else {
        OffersFirstChildren(g, caps, item);
        hide Below, Cut, Complete;
        UnstoppedIsComplete(g, caps, breadthFirst, Append(breadthFirst, rest, Below(g, caps, item)), visits + [item]);
      }
    }
  }

  /** A search stops at an item with more children than it may follow, or at an element that is one too many. */
  lemma {:induction false} StoppedMeans(g: Graph, caps: Caps, breadthFirst: bool, root: Element, work: seq<Item>,
                                        visits: seq<Item>)
    requires |visits| <= caps.nodes && Walked(g, root, work) && Stopped(g, caps, breadthFirst, work, visits)
    ensures var all := Search(g, caps, breadthFirst, work, visits);
            || (exists item <- all :: !Complete(g, caps, item))
            || (|all| == caps.nodes && exists e :: Reachable(g, root, e) && !Seen(all, e))
    decreases caps.nodes - |visits|, |work|
  {
    hide Below, Append, Complete, Walk, Seen;
    var item, rest := Head(breadthFirst, work), Rest(breadthFirst, work);
    if Seen(visits, item.element) {
      StoppedMeans(g, caps, breadthFirst, root, rest, visits);
    } else if |visits| == caps.nodes {
      assert Walk(g, root, item.element, item.depth);
      assert Reachable(g, root, item.element);
    } else {
      var work' := Append(breadthFirst, rest, Below(g, caps, item));
      BelowWalked(g, caps, root, item);
      AppendWalked(g, root, breadthFirst, rest, Below(g, caps, item));
      if Stopped(g, caps, breadthFirst, work', visits + [item]) {
        StoppedMeans(g, caps, breadthFirst, root, work', visits + [item]);
      } else {
        OffersFirstChildren(g, caps, item);
        SearchExtends(g, caps, breadthFirst, work', visits + [item]);
        assert (visits + [item])[|visits|] == item;
      }
    }
  }

  /**
   A cap stopped the search exactly if it visited an item whose children it may not all follow, or
   made all the visits it may and left a reachable element out.
   */
  lemma StoppedExactly(g: Graph, caps: Caps, breadthFirst: bool, root: Element)
    ensures var all := Search(g, caps, breadthFirst, [Item(root, 0)], []);
            Stopped(g, caps, breadthFirst, [Item(root, 0)], []) <==>
              || (exists item <- all :: !Complete(g, caps, item))
              || (|all| == caps.nodes && exists e :: Reachable(g, root, e) && !Seen(all, e))
  {
    hide Search, Stopped, Complete;
    var start := [Item(root, 0)];
    assert Walked(g, root, start);
    if Stopped(g, caps, breadthFirst, start, []) {
      StoppedMeans(g, caps, breadthFirst, root, start, []);
    } else {
      UnstoppedIsComplete(g, caps, breadthFirst, start, []);
      forall e | Reachable(g, root, e) ensures Seen(Search(g, caps, breadthFirst, start, []), e) {
        LocatedMeans(g, caps, root, e, breadthFirst);
      }
    }
  }

  // ----- the tree

  function Elements(items: seq<Item>): seq<Element> {
    seq(|items|, i requires 0 <= i < |items| => items[i].element)
  }

  /** What the nodes of these items take in full. */
  function FullBytes(v: View, items: seq<Item>): nat {
    if items == [] then 0
    else FullBytes(v, items[..|items| - 1]) + SizesOf(v, items[|items| - 1].element).full
  }

  /** Every visit is leased with its full node, in order, and all its children may be followed. */
  ghost predicate Whole(v: View, caps: Caps, st: Built) {
    && st.leased == Elements(st.visits)
    && st.bytes == FullBytes(v, st.visits) <= OUTPUT_BYTES
    && forall i :: 0 <= i < |st.visits| ==> Complete(v.graph, caps, st.visits[i])
  }

  /** The visits fill the node cap, leave a child out, or take more than the output budget. */
  ghost predicate Limited(v: View, caps: Caps, visits: seq<Item>) {
    || |visits| == caps.nodes
    || FullBytes(v, visits) > OUTPUT_BYTES
    || exists i :: 0 <= i < |visits| && !Complete(v.graph, caps, visits[i])
  }

  /** The flag says which of the two. */
  ghost predicate Flagged(v: View, caps: Caps, st: Built) {
    |st.visits| <= caps.nodes && if st.truncated then Limited(v, caps, st.visits) else Whole(v, caps, st)
  }

  lemma OneMore(v: View, items: seq<Item>, item: Item)
    ensures Elements(items + [item]) == Elements(items) + [item.element]
    ensures FullBytes(v, items + [item]) == FullBytes(v, items) + SizesOf(v, item.element).full
  {
    assert (items + [item])[..|items|] == items;
  }

  lemma LimitedStays(v: View, caps: Caps, visits: seq<Item>, item: Item)
    requires Limited(v, caps, visits) && |visits| < caps.nodes
    ensures Limited(v, caps, visits + [item])
  {
    hide Complete;
    OneMore(v, visits, item);
    if i :| 0 <= i < |visits| && !Complete(v.graph, caps, visits[i]) { assert (visits + [item])[i] == visits[i]; }
  }

  /** A node and its flag. */
  lemma VisitFlags(v: View, caps: Caps, item: Item, st: Built)
    requires Flagged(v, caps, st) && |st.visits| < caps.nodes
    ensures if Fits(v, item.element, st.bytes) then Flagged(v, caps, Followed(v, caps, item, st))
            else Flagged(v, caps, Enter(v, item, st))
  {
    OneMore(v, st.visits, item);
    OffersFirstChildren(v.graph, caps, item);
    hide Complete, Cut, FullBytes, Elements;
    var visits := st.visits + [item];
    if st.truncated {
      LimitedStays(v, caps, st.visits, item);
    } else if Cut(v.graph, caps, item) {
      assert visits[|st.visits|] == item;
    }
  }

  lemma CapFlags(v: View, caps: Caps, st: Built)
    requires |st.visits| == caps.nodes
    ensures Flagged(v, caps, st.(truncated := true))
  {
  }

  lemma {:induction false} BuildFlags(v: View, caps: Caps, item: Item, st: Built)
    requires Flagged(v, caps, st)
    ensures Flagged(v, caps, Build(v, caps, item, st))
    decreases caps.nodes - |st.visits|, 0
  {
    hide Whole, Limited, Below;
    if |st.visits| == caps.nodes {
      CapFlags(v, caps, st);
    } else if !Seen(st.visits, item.element) {
      VisitFlags(v, caps, item, st);
      if Fits(v, item.element, st.bytes) {
        BuildAllFlags(v, caps, Below(v.graph, caps, item), Followed(v, caps, item, st));
      }
    }
  }

  lemma {:induction false} BuildAllFlags(v: View, caps: Caps, items: seq<Item>, st: Built)
    requires Flagged(v, caps, st)
    ensures Flagged(v, caps, BuildAll(v, caps, items, st))
    decreases caps.nodes - |st.visits|, |items|
  {
    hide Whole, Limited;
    if items != [] {
      if |st.visits| == caps.nodes {
        CapFlags(v, caps, st);
      } else {
        BuildFlags(v, caps, items[0], st);
        BuildAllFlags(v, caps, items[1..], Build(v, caps, items[0], st));
      }
    }
  }

  /** Building never takes the flag back. */
  lemma {:induction false} FlagStays(v: View, caps: Caps, item: Item, st: Built)
    requires |st.visits| <= caps.nodes && st.truncated
    ensures Build(v, caps, item, st).truncated
    decreases caps.nodes - |st.visits|, 0
  {
    if |st.visits| < caps.nodes && !Seen(st.visits, item.element) && Fits(v, item.element, st.bytes) {
      FlagStaysAll(v, caps, Below(v.graph, caps, item), Followed(v, caps, item, st));
    }
  }

  lemma {:induction false} FlagStaysAll(v: View, caps: Caps, items: seq<Item>, st: Built)
    requires |st.visits| <= caps.nodes && st.truncated
    ensures BuildAll(v, caps, items, st).truncated
    decreases caps.nodes - |st.visits|, |items|
  {
    if items != [] && |st.visits| < caps.nodes {
      FlagStays(v, caps, items[0], st);
      FlagStaysAll(v, caps, items[1..], Build(v, caps, items[0], st));
    }
  }

  /** The children of the visits from an index on were all visited. */
  ghost predicate Closes(g: Graph, visits: seq<Item>, from: nat) {
    forall i, c :: from <= i < |visits| && c in Children(g, visits[i].element) ==> Seen(visits, c)
  }

  lemma ClosesLater(g: Graph, a: seq<Item>, b: seq<Item>, from: nat)
    requires from <= |a| && a <= b && Closes(g, a, from) && Closes(g, b, |a|)
    ensures Closes(g, b, from)
  {
    forall i, c | from <= i < |b| && c in Children(g, b[i].element) ensures Seen(b, c) {
      if i < |a| {
        assert a[i] == b[i];
        SeenPrefix(a, b, c);
      }
    }
  }

  /** Without the flag, a built item and all below it were visited. */
  lemma {:induction false} UntruncatedCloses(v: View, caps: Caps, item: Item, st: Built)
    requires |st.visits| <= caps.nodes && !Build(v, caps, item, st).truncated
    ensures var r := Build(v, caps, item, st);
            Seen(r.visits, item.element) && Closes(v.graph, r.visits, |st.visits|)
    decreases caps.nodes - |st.visits|, 0
  {
    if !Seen(st.visits, item.element) {
      var next, entered := Below(v.graph, caps, item), Followed(v, caps, item, st);
      var r := BuildAll(v, caps, next, entered);
      UntruncatedClosesAll(v, caps, next, entered);
      BuildAllExtends(v, caps, next, entered);
      assert r.visits[|st.visits|] == entered.visits[|st.visits|] == item;
      if entered.truncated { FlagStaysAll(v, caps, next, entered); }
      hide Build, BuildAll, Below, Cut;
      forall c | c in Children(v.graph, item.element) ensures Seen(r.visits, c) {
        BelowComplete(v.graph, caps, item, c);
        var i :| 0 <= i < |next| && next[i].element == c;
        assert Seen(r.visits, next[i].element);
      }
    }
  }

  lemma {:induction false} UntruncatedClosesAll(v: View, caps: Caps, items: seq<Item>, st: Built)
    requires |st.visits| <= caps.nodes && !BuildAll(v, caps, items, st).truncated
    ensures var r := BuildAll(v, caps, items, st);
            (forall item <- items :: Seen(r.visits, item.element)) && Closes(v.graph, r.visits, |st.visits|)
    decreases caps.nodes - |st.visits|, |items|
  {
    if items != [] {
      var built := Build(v, caps, items[0], st);
      var r := BuildAll(v, caps, items[1..], built);
      if built.truncated { FlagStaysAll(v, caps, items[1..], built); }
      UntruncatedCloses(v, caps, items[0], st);
      UntruncatedClosesAll(v, caps, items[1..], built);
      BuildAllExtends(v, caps, items[1..], built);
      BuildExtends(v, caps, items[0], st);
      ClosesLater(v.graph, built.visits, r.visits, |st.visits|);
      SeenPrefix(built.visits, r.visits, items[0].element);
      assert items == [items[0]] + items[1..];
    }
  }

  lemma SeenIsElement(visits: seq<Item>, e: Element)
    ensures Seen(visits, e) <==> e in Elements(visits)
  {
    if Seen(visits, e) {
      var i :| 0 <= i < |visits| && visits[i].element == e;
      assert Elements(visits)[i] == e;
    }
  }

  /**
   A tree that is not truncated is the whole tree: exactly the reachable elements are leased, each
   with its full node and all its children, in the order of the search, which no cap stops.
   */
  lemma UntruncatedTreeIsWhole(v: View, caps: Caps, root: Element)
    requires !Tree(v, caps, root).truncated
    ensures var t := Tree(v, caps, root);
            && (forall e :: Reachable(v.graph, root, e) <==> e in t.leased)
            && t.leased == Elements(t.visits)
            && t.bytes == FullBytes(v, t.visits) <= OUTPUT_BYTES
            && (forall i :: 0 <= i < |t.visits| ==> Complete(v.graph, caps, t.visits[i]))
            && t.visits == Search(v.graph, caps, false, [Item(root, 0)], [])
            && !Stopped(v.graph, caps, false, [Item(root, 0)], [])
  {
    var t := Tree(v, caps, root);
    BuildFlags(v, caps, Item(root, 0), NOTHING);
    UntruncatedCloses(v, caps, Item(root, 0), NOTHING);
    hide Build, Seen, Complete, Search, Stopped;
    DepthFirstWalksAgree(v, caps, root);
    forall e ensures Reachable(v.graph, root, e) <==> Seen(t.visits, e) && e in t.leased {
      SeenIsElement(t.visits, e);
      if e in t.leased { LeasedIsReachable(v, caps, root, e); }
      if Reachable(v.graph, root, e) {
        NothingSeen(e);
        ClosedIsReachable(v.graph, t.visits, root, e);
      }
    }
    StoppedExactly(v.graph, caps, false, root);
  }

  /** No element is visited twice. */
  ghost predicate Distinct(visits: seq<Item>) {
    forall i, j :: 0 <= i < j < |visits| ==> visits[i].element != visits[j].element
  }

  lemma DistinctStays(visits: seq<Item>, item: Item)
    requires Distinct(visits) && !Seen(visits, item.element)
    ensures Distinct(visits + [item])
  {
  }

  lemma {:induction false} BuildDistinct(v: View, caps: Caps, item: Item, st: Built)
    requires |st.visits| <= caps.nodes && Distinct(st.visits)
    ensures Distinct(Build(v, caps, item, st).visits)
    decreases caps.nodes - |st.visits|, 0
  {
    hide Distinct;
    if |st.visits| < caps.nodes && !Seen(st.visits, item.element) {
      DistinctStays(st.visits, item);
      if Fits(v, item.element, st.bytes) {
        BuildAllDistinct(v, caps, Below(v.graph, caps, item), Followed(v, caps, item, st));
      }
    }
  }

  lemma {:induction false} BuildAllDistinct(v: View, caps: Caps, items: seq<Item>, st: Built)
    requires |st.visits| <= caps.nodes && Distinct(st.visits)
    ensures Distinct(BuildAll(v, caps, items, st).visits)
    decreases caps.nodes - |st.visits|, |items|
  {
    hide Distinct;
    if items != [] && |st.visits| < caps.nodes {
      BuildDistinct(v, caps, items[0], st);
      BuildAllDistinct(v, caps, items[1..], Build(v, caps, items[0], st));
    }
  }

  /**
   A truncated tree met a limit: its visits, each another element at the end of a walk from the root
   as long as its depth, fill the node cap, take more than the output budget, or leave a child out.
   */
  lemma TruncatedTreeMetALimit(v: View, caps: Caps, root: Element)
    requires Tree(v, caps, root).truncated
    ensures var t := Tree(v, caps, root);
            && Walked(v.graph, root, t.visits) && Distinct(t.visits)
            && (|t.visits| == caps.nodes || FullBytes(v, t.visits) > OUTPUT_BYTES
                || exists i :: 0 <= i < |t.visits| && !Complete(v.graph, caps, t.visits[i]))
  {
    hide Build;
    assert Walk(v.graph, root, root, 0);
    BuildFlags(v, caps, Item(root, 0), NOTHING);
    BuildStaysReachable(v, caps, root, Item(root, 0), NOTHING);
    BuildDistinct(v, caps, Item(root, 0), NOTHING);
  }

  // ----- where the window is a tree, its flag is exact

  /** Each element is at most one element's child, once, and the root is none's. */
  ghost predicate Branching(g: Graph, root: Element) {
    && (forall p :: root !in Children(g, p))
    && (forall p, q, i, j | 0 <= i < |Children(g, p)| && 0 <= j < |Children(g, q)| ::
          Children(g, p)[i] == Children(g, q)[j] ==> p == q && i == j)
  }

  /** The visits from an index on are of these elements, or of children of earlier ones among them. */
  ghost predicate Descends(g: Graph, visits: seq<Item>, from: nat, sources: set<Element>) {
    forall k :: from <= k < |visits| ==>
      || visits[k].element in sources
      || exists j :: from <= j < k && visits[k].element in Children(g, visits[j].element)
  }

  lemma DescendsOn(g: Graph, a: seq<Item>, b: seq<Item>, from: nat, first: set<Element>, second: set<Element>)
    requires from <= |a| && a <= b && Descends(g, a, from, first) && Descends(g, b, |a|, second)
    ensures Descends(g, b, from, first + second)
  {
    forall k | from <= k < |b| && b[k].element !in first + second
      ensures exists j :: from <= j < k && b[k].element in Children(g, b[j].element)
    {
      if k < |a| {
        assert a[k] == b[k];
        var j :| from <= j < k && a[k].element in Children(g, a[j].element);
        assert b[j] == a[j];
      } else {
        var j :| |a| <= j < k && b[k].element in Children(g, b[j].element);
      }
    }
  }

  /** Below an item, everything descends from it. */
  lemma DescendsThrough(g: Graph, caps: Caps, visits: seq<Item>, from: nat, item: Item)
    requires from < |visits| && visits[from] == item
    requires Descends(g, visits, from + 1, set below | below in Elements(Below(g, caps, item)))
    ensures Descends(g, visits, from, {item.element})
  {
    forall k | from < k < |visits|
      ensures exists j :: from <= j < k && visits[k].element in Children(g, visits[j].element)
    {
      if visits[k].element in Elements(Below(g, caps, item)) {
        var i :| 0 <= i < |Below(g, caps, item)| && Elements(Below(g, caps, item))[i] == visits[k].element;
        assert visits[k].element == Children(g, item.element)[i];
        assert visits[k].element in Children(g, visits[from].element);
      }
    }
  }

  lemma {:induction false} BuildDescends(v: View, caps: Caps, item: Item, st: Built)
    requires |st.visits| <= caps.nodes
    ensures Descends(v.graph, Build(v, caps, item, st).visits, |st.visits|, {item.element})
    decreases caps.nodes - |st.visits|, 0
  {
    if |st.visits| < caps.nodes && !Seen(st.visits, item.element) && Fits(v, item.element, st.bytes) {
      var next, entered := Below(v.graph, caps, item), Followed(v, caps, item, st);
      BuildAllDescends(v, caps, next, entered);
      BuildAllExtends(v, caps, next, entered);
      DescendsThrough(v.graph, caps, BuildAll(v, caps, next, entered).visits, |st.visits|, item);
    }
  }

  lemma {:induction false} BuildAllDescends(v: View, caps: Caps, items: seq<Item>, st: Built)
    requires |st.visits| <= caps.nodes
    ensures Descends(v.graph, BuildAll(v, caps, items, st).visits, |st.visits|, set e | e in Elements(items))
    decreases caps.nodes - |st.visits|, |items|
  {
    if items != [] && |st.visits| < caps.nodes {
      var built := Build(v, caps, items[0], st);
      var r := BuildAll(v, caps, items[1..], built);
      BuildDescends(v, caps, items[0], st);
      BuildAllDescends(v, caps, items[1..], built);
      BuildExtends(v, caps, items[0], st);
      BuildAllExtends(v, caps, items[1..], built);
      hide Descends, Build, BuildAll;
      DescendsOn(v.graph, built.visits, r.visits, |st.visits|, {items[0].element}, set e | e in Elements(items[1..]));
      assert Elements(items) == [items[0].element] + Elements(items[1..]);
      assert {items[0].element} + (set e | e in Elements(items[1..])) == set e | e in Elements(items);
    }
  }

  /** These are children of a visited element, or the root before any visit; none of them is visited, or there twice. */
  ghost predicate Sprouts(g: Graph, root: Element, items: seq<Item>, visits: seq<Item>) {
    && Distinct(items) && Distinct(visits) && Descends(g, visits, 0, {root})
    && (forall i :: 0 <= i < |items| ==> !Seen(visits, items[i].element))
    && (items == [] || (visits == [] && items == [Item(root, 0)])
        || exists k :: 0 <= k < |visits|
                       && forall i :: 0 <= i < |items| ==> items[i].element in Children(g, visits[k].element))
  }

  lemma OneParent(g: Graph, root: Element, c: Element, p: Element, q: Element)
    requires Branching(g, root) && c in Children(g, p) && c in Children(g, q)
    ensures p == q && c != root
  {
    var i :| 0 <= i < |Children(g, p)| && Children(g, p)[i] == c;
    var j :| 0 <= j < |Children(g, q)| && Children(g, q)[j] == c;
  }

  lemma VisitDescends(g: Graph, root: Element, visits: seq<Item>, item: Item)
    requires Descends(g, visits, 0, {root})
    requires item.element == root || exists k :: 0 <= k < |visits| && item.element in Children(g, visits[k].element)
    ensures Descends(g, visits + [item], 0, {root})
  {
    var all := visits + [item];
    forall k | 0 <= k < |all| && all[k].element != root
      ensures exists j :: 0 <= j < k && all[k].element in Children(g, all[j].element)
    {
      var j :| 0 <= j < k && all[k].element in Children(g, visits[j].element);
      assert all[j] == visits[j];
    }
  }

  /** A new item's child is new too. */
  lemma ChildIsNew(g: Graph, root: Element, visits: seq<Item>, item: Item, c: Element)
    requires Branching(g, root) && c in Children(g, item.element)
    requires Descends(g, visits, 0, {root}) && !Seen(visits, item.element)
    requires item.element == root || exists k :: 0 <= k < |visits| && item.element in Children(g, visits[k].element)
    ensures !Seen(visits + [item], c)
  {
    OneParent(g, root, c, item.element, item.element);
    if k :| 0 <= k < |visits| && visits[k].element == c {
      var j :| 0 <= j < k && c in Children(g, visits[j].element);
      OneParent(g, root, c, visits[j].element, item.element);
    }
    if c == item.element {
      var k :| 0 <= k < |visits| && c in Children(g, visits[k].element);
      OneParent(g, root, c, visits[k].element, item.element);
    }
    SeenAppend(visits, item, c);
  }

  /** Visiting an item, its children sprout. */
  lemma ChildrenSprout(g: Graph, caps: Caps, root: Element, items: seq<Item>, visits: seq<Item>)
    requires Branching(g, root) && items != [] && Sprouts(g, root, items, visits)
    ensures Sprouts(g, root, Below(g, caps, items[0]), visits + [items[0]])
  {
    var item, next, all := items[0], Below(g, caps, items[0]), visits + [items[0]];
    hide Seen, Descends;
    DistinctStays(visits, item);
    VisitDescends(g, root, visits, item);
    OffersFirstChildren(g, caps, item);
    hide Below;
    assert all[|visits|] == item;
    forall i | 0 <= i < |next|
      ensures next[i].element in Children(g, all[|visits|].element) && !Seen(all, next[i].element)
    {
      ChildIsNew(g, root, visits, item, next[i].element);
    }
  }

  lemma SubtreeDescends(g: Graph, root: Element, item: Item, visits: seq<Item>, more: seq<Item>)
    requires Descends(g, visits, 0, {root}) && visits <= more && Descends(g, more, |visits|, {item.element})
    requires item.element == root || exists k :: 0 <= k < |visits| && item.element in Children(g, visits[k].element)
    ensures Descends(g, more, 0, {root})
  {
    forall k | 0 <= k < |more| && more[k].element != root
      ensures exists j :: 0 <= j < k && more[k].element in Children(g, more[j].element)
    {
      if k < |visits| {
        var j :| 0 <= j < k && visits[k].element in Children(g, visits[j].element);
        assert more[j] == visits[j];
      } else if more[k].element == item.element {
        var j :| 0 <= j < |visits| && item.element in Children(g, visits[j].element);
        assert more[j] == visits[j];
      }
    }
  }

  /** A sibling of the item is not in the item's subtree. */
  lemma SiblingIsNew(g: Graph, root: Element, item: Item, sibling: Item, p: nat, visits: seq<Item>, more: seq<Item>)
    requires Branching(g, root) && visits <= more && Distinct(more) && Descends(g, more, |visits|, {item.element})
    requires p < |visits| && sibling.element in Children(g, visits[p].element)
    requires sibling.element != item.element && !Seen(visits, sibling.element)
    ensures !Seen(more, sibling.element)
  {
    assert more[p] == visits[p];
    hide Branching;
    forall j | |visits| <= j < |more| ensures sibling.element !in Children(g, more[j].element) {
      if sibling.element in Children(g, more[j].element) {
        OneParent(g, root, sibling.element, more[j].element, more[p].element);
      }
    }
    assert forall k :: 0 <= k < |visits| ==> more[k] == visits[k];
  }

  /** The subtree of one item takes none of the others. */
  lemma OthersSprout(g: Graph, root: Element, items: seq<Item>, visits: seq<Item>, more: seq<Item>)
    requires Branching(g, root) && items != [] && Sprouts(g, root, items, visits)
    requires visits <= more && Distinct(more) && Descends(g, more, |visits|, {items[0].element})
    ensures Sprouts(g, root, items[1..], more)
  {
    hide Branching, Seen, Descends, Children;
    SubtreeDescends(g, root, items[0], visits, more);
    if |items| > 1 {
      var p :| 0 <= p < |visits| && forall i :: 0 <= i < |items| ==> items[i].element in Children(g, visits[p].element);
      assert more[p] == visits[p];
      forall i | 1 <= i < |items| ensures !Seen(more, items[i].element) {
        SiblingIsNew(g, root, items[0], items[i], p, visits, more);
      }
      assert forall i :: 0 <= i < |items[1..]| ==> items[1..][i] == items[i + 1];
    }
  }

  /** The visits leave a child out, take more than the output budget, or fill the node cap before the last element. */
  ghost predicate Exceeds(v: View, caps: Caps, root: Element, visits: seq<Item>) {
    || FullBytes(v, visits) > OUTPUT_BYTES
    || (exists i :: 0 <= i < |visits| && !Complete(v.graph, caps, visits[i]))
    || (|visits| == caps.nodes && exists e :: Reachable(v.graph, root, e) && !Seen(visits, e))
  }

  lemma VisitExceeds(v: View, caps: Caps, root: Element, item: Item, st: Built)
    requires Flagged(v, caps, st) && |st.visits| < caps.nodes && (st.truncated ==> Exceeds(v, caps, root, st.visits))
    ensures var r := if Fits(v, item.element, st.bytes) then Followed(v, caps, item, st) else Enter(v, item, st);
            r.truncated ==> Exceeds(v, caps, root, r.visits)
  {
    OneMore(v, st.visits, item);
    OffersFirstChildren(v.graph, caps, item);
    hide Complete, Cut, FullBytes, Elements;
    var visits := st.visits + [item];
    assert visits[|st.visits|] == item;
    if i :| 0 <= i < |st.visits| && !Complete(v.graph, caps, st.visits[i]) { assert visits[i] == st.visits[i]; }
  }

  lemma {:induction false} BranchFlags(v: View, caps: Caps, root: Element, items: seq<Item>, st: Built)
    requires Branching(v.graph, root) && items != [] && Sprouts(v.graph, root, items, st.visits)
    requires Walked(v.graph, root, items)
    requires Flagged(v, caps, st) && (st.truncated ==> Exceeds(v, caps, root, st.visits))
    ensures var r := Build(v, caps, items[0], st); r.truncated ==> Exceeds(v, caps, root, r.visits)
    decreases caps.nodes - |st.visits|, 0
  {
    var item := items[0];
    assert !Seen(st.visits, item.element) && Walk(v.graph, root, item.element, item.depth);
    assert Reachable(v.graph, root, item.element);
    if |st.visits| < caps.nodes {
      hide Branching, Sprouts, Seen, Below, Whole, Limited, Exceeds, Reachable, Walk;
      VisitFlags(v, caps, item, st);
      VisitExceeds(v, caps, root, item, st);
      if Fits(v, item.element, st.bytes) {
        ChildrenSprout(v.graph, caps, root, items, st.visits);
        BelowWalked(v.graph, caps, root, item);
        BranchFlagsAll(v, caps, root, Below(v.graph, caps, item), Followed(v, caps, item, st));
      }
    }
  }

  lemma {:induction false} BranchFlagsAll(v: View, caps: Caps, root: Element, items: seq<Item>, st: Built)
    requires Branching(v.graph, root) && Sprouts(v.graph, root, items, st.visits)
    requires Walked(v.graph, root, items)
    requires Flagged(v, caps, st) && (st.truncated ==> Exceeds(v, caps, root, st.visits))
    ensures var r := BuildAll(v, caps, items, st); r.truncated ==> Exceeds(v, caps, root, r.visits)
    decreases caps.nodes - |st.visits|, |items|
  {
    if items != [] {
      if |st.visits| == caps.nodes {
        assert !Seen(st.visits, items[0].element) && Walk(v.graph, root, items[0].element, items[0].depth);
        assert Reachable(v.graph, root, items[0].element);
      } else {
        assert Distinct(st.visits);
        hide Branching, Sprouts, Seen, Whole, Limited, Exceeds, Reachable, Walk, Build, Distinct;
        var built := Build(v, caps, items[0], st);
        BranchFlags(v, caps, root, items, st);
        BuildFlags(v, caps, items[0], st);
        BuildExtends(v, caps, items[0], st);
        BuildDistinct(v, caps, items[0], st);
        BuildDescends(v, caps, items[0], st);
        OthersSprout(v.graph, root, items, st.visits, built.visits);
        BranchFlagsAll(v, caps, root, items[1..], built);
      }
    }
  }

  /**
   Where the window is a tree, the flag is exact: it is set exactly if the visits take more than the
   output budget, are at an item whose children may not all be followed, or leave out an element.
   */
  lemma TreeFlagIsExact(v: View, caps: Caps, root: Element)
    requires Branching(v.graph, root)
    ensures var t := Tree(v, caps, root);
            t.truncated <==>
              || FullBytes(v, t.visits) > OUTPUT_BYTES
              || (exists i :: 0 <= i < |t.visits| && !Complete(v.graph, caps, t.visits[i]))
              || (exists e :: Reachable(v.graph, root, e) && !Seen(t.visits, e))
  {
    var t := Tree(v, caps, root);
    var start := [Item(root, 0)];
    if t.truncated {
      assert Walked(v.graph, root, start);
      assert Sprouts(v.graph, root, start, []);
      hide Branching, Sprouts, Build;
      BranchFlags(v, caps, root, start, NOTHING);
    } else {
      UntruncatedTreeIsWhole(v, caps, root);
      hide Build, Seen, Reachable;
      forall e | Reachable(v.graph, root, e) ensures Seen(t.visits, e) { SeenIsElement(t.visits, e); }
    }
  }

  lemma WholeIsFollowed(v: View, caps: Caps, item: Item, st: Built)
    requires !st.truncated && st.bytes + SizesOf(v, item.element).full <= OUTPUT_BYTES && Complete(v.graph, caps, item)
    ensures Fits(v, item.element, st.bytes)
    ensures Followed(v, caps, item, st)
            == Built(st.visits + [item], st.leased + [item.element], false, st.bytes + SizesOf(v, item.element).full)
  {
    OffersFirstChildren(v.graph, caps, item);
    hide Complete, Cut, SizesOf;
  }

  lemma ChildlessIsBuilt(v: View, caps: Caps, item: Item, st: Built)
    requires |st.visits| < caps.nodes && !Seen(st.visits, item.element) && Children(v.graph, item.element) == []
    requires !st.truncated && st.bytes + SizesOf(v, item.element).full <= OUTPUT_BYTES
    ensures Build(v, caps, item, st)
            == Built(st.visits + [item], st.leased + [item.element], false, st.bytes + SizesOf(v, item.element).full)
  {
    WholeIsFollowed(v, caps, item, st);
    OffersFirstChildren(v.graph, caps, item);
    hide Seen, SizesOf, Children, Below, Followed, Fits;
    assert Below(v.graph, caps, item) == [];
  }

  lemma OfferAtCapSetsFlag(v: View, caps: Caps, first: Item, second: Item, st: Built)
    requires |st.visits| < caps.nodes && |Build(v, caps, first, st).visits| == caps.nodes
    ensures BuildAll(v, caps, [first, second], st) == Build(v, caps, first, st).(truncated := true)
  {
    hide Build;
    assert [first, second][1..] == [second];
  }

  /**
   Elsewhere it is not: with a cap of two nodes, an element that holds just another one, twice, is
   reported truncated, though everything reachable is leased.
   */
  lemma SharedChildSetsFlag(v: View, caps: Caps)
    requires caps.nodes == 2 && caps.depth >= 1 && caps.children >= 2
    requires Children(v.graph, 0) == [1, 1] && Children(v.graph, 1) == []
    requires SizesOf(v, 0) == SizesOf(v, 1) == Sizes(0, 0)
    ensures Tree(v, caps, 0) == Built([Item(0, 0), Item(1, 1)], [0, 1], true, 0)
    ensures Closes(v.graph, Tree(v, caps, 0).visits, 0)
  {
    var a, b := Built([Item(0, 0)], [0], false, 0), Built([Item(0, 0), Item(1, 1)], [0, 1], false, 0);
    NothingSeen(0);
    NothingSeen(1);
    SeenAppend([], Item(0, 0), 1);
    SeenAppend([Item(0, 0)], Item(1, 1), 1);
    OffersFirstChildren(v.graph, caps, Item(0, 0));
    WholeIsFollowed(v, caps, Item(0, 0), NOTHING);
    ChildlessIsBuilt(v, caps, Item(1, 1), a);
    hide Seen, SizesOf, Children, Below, Followed, Fits;
    assert [] + [Item(0, 0)] == [Item(0, 0)] && [] + [0] == [0];
    assert Below(v.graph, caps, Item(0, 0)) == [Item(1, 1), Item(1, 1)];
    assert Tree(v, caps, 0) == BuildAll(v, caps, [Item(1, 1), Item(1, 1)], a);
    OfferAtCapSetsFlag(v, caps, Item(1, 1), Item(1, 1), a);
    hide Build, BuildAll;
    assert Tree(v, caps, 0) == b.(truncated := true);
    forall i, c | 0 <= i < 2 && c in Children(v.graph, b.visits[i].element) ensures Seen(b.visits, c) {
      assert i == 0 && c == 1;
    }
  }

  /** What the leases take of the budget: each node in full if it fits, else shortened if that fits, else nothing. */
  function Spent(v: View, items: seq<Item>): nat {
    if items == [] then 0
    else
      var before, sizes := Spent(v, items[..|items| - 1]), SizesOf(v, items[|items| - 1].element);
      if before + sizes.full <= OUTPUT_BYTES then before + sizes.full
      else if before + sizes.stripped <= OUTPUT_BYTES then before + sizes.stripped
      else before
  }

  /** The elements of those items whose node, in full or shortened, fits beside the nodes before it. */
  function WhatFits(v: View, items: seq<Item>): seq<Element> {
    if items == [] then []
    else
      var before, last := items[..|items| - 1], items[|items| - 1].element;
      WhatFits(v, before) +
      if || Spent(v, before) + SizesOf(v, last).full <= OUTPUT_BYTES
         || Spent(v, before) + SizesOf(v, last).stripped <= OUTPUT_BYTES
      then [last] else []
  }

  ghost predicate Budgeted(v: View, st: Built) {
    st.bytes == Spent(v, st.visits) <= OUTPUT_BYTES && st.leased == WhatFits(v, st.visits)
  }

  lemma EnterBudgets(v: View, item: Item, st: Built)
    requires Budgeted(v, st)
    ensures Budgeted(v, Enter(v, item, st))
  {
    assert (st.visits + [item])[..|st.visits|] == st.visits;
  }

  lemma FlagBudgets(v: View, st: Built)
    requires Budgeted(v, st)
    ensures forall truncated :: Budgeted(v, st.(truncated := truncated))
  {
  }

  lemma {:induction false} BuildBudgets(v: View, caps: Caps, item: Item, st: Built)
    requires |st.visits| <= caps.nodes && Budgeted(v, st)
    ensures Budgeted(v, Build(v, caps, item, st))
    decreases caps.nodes - |st.visits|, 0
  {
    hide Budgeted;
    EnterBudgets(v, item, st);
    FlagBudgets(v, st);
    FlagBudgets(v, Enter(v, item, st));
    if |st.visits| < caps.nodes && !Seen(st.visits, item.element) && Fits(v, item.element, st.bytes) {
      BuildAllBudgets(v, caps, Below(v.graph, caps, item), Followed(v, caps, item, st));
    }
  }

  lemma {:induction false} BuildAllBudgets(v: View, caps: Caps, items: seq<Item>, st: Built)
    requires |st.visits| <= caps.nodes && Budgeted(v, st)
    ensures Budgeted(v, BuildAll(v, caps, items, st))
    decreases caps.nodes - |st.visits|, |items|
  {
    hide Budgeted;
    if items != [] && |st.visits| < caps.nodes {
      BuildBudgets(v, caps, items[0], st);
      BuildAllBudgets(v, caps, items[1..], Build(v, caps, items[0], st));
    } else if items != [] {
      FlagBudgets(v, st);
    }
  }

  /** Of a tree's visits, exactly those are leased whose node fits, in full or shortened, beside the nodes before it. */
  lemma TreeLeasesWhatFits(v: View, caps: Caps, root: Element)
    ensures var t := Tree(v, caps, root);
            t.leased == WhatFits(v, t.visits) && t.bytes == Spent(v, t.visits) <= OUTPUT_BYTES
  {
    BuildBudgets(v, caps, Item(root, 0), NOTHING);
  }

  // ----- the target list

  /** What the actionable elements among these items take in full. */
  function ActionableBytes(v: View, actionable: set<Element>, items: seq<Item>): nat {
    if items == [] then 0
    else
      var last := items[|items| - 1].element;
      ActionableBytes(v, actionable, items[..|items| - 1]) + if last in actionable then SizesOf(v, last).full else 0
  }

  /** The list goes on within its budget, and its flag tells whether a visit left a child out. */
  ghost predicate Listing(v: View, caps: Caps, actionable: set<Element>, st: Targets) {
    && |st.visits| <= caps.nodes
    && st.bytes == ActionableBytes(v, actionable, st.visits) <= OUTPUT_BYTES
    && (st.truncated <==> exists item <- st.visits :: !Complete(v.graph, caps, item))
  }

  lemma OneMoreListed(v: View, caps: Caps, actionable: set<Element>, item: Item, st: Targets)
    requires Listing(v, caps, actionable, st) && |st.visits| < caps.nodes
    ensures ActionableBytes(v, actionable, st.visits + [item])
            == st.bytes + if item.element in actionable then SizesOf(v, item.element).full else 0
    ensures item.element !in actionable || st.bytes + SizesOf(v, item.element).full <= OUTPUT_BYTES ==>
              Listing(v, caps, actionable, Targeted(v, caps, actionable, item, st))
  {
    OffersFirstChildren(v.graph, caps, item);
    hide Complete, Cut;
    assert (st.visits + [item])[..|st.visits|] == st.visits;
  }

  /** The list ends with its queue, at the node cap, or before the first actionable element beyond its budget. */
  lemma {:induction false} ListEnds(v: View, caps: Caps, actionable: set<Element>, work: seq<Item>, st: Targets)
    requires Listing(v, caps, actionable, st)
    ensures var r := List(v, caps, actionable, work, st);
            || Listing(v, caps, actionable, r)
            || (r.truncated && (|r.visits| == caps.nodes || ActionableBytes(v, actionable, r.visits) > OUTPUT_BYTES))
    decreases caps.nodes - |st.visits|, |work|
  {
    hide Seen, Below, ActionableBytes;
    if work != [] && |st.visits| < caps.nodes {
      if Seen(st.visits, work[0].element) {
        ListEnds(v, caps, actionable, work[1..], st);
      } else {
        OneMoreListed(v, caps, actionable, work[0], st);
        if work[0].element !in actionable || st.bytes + SizesOf(v, work[0].element).full <= OUTPUT_BYTES {
          ListEnds(v, caps, actionable, work[1..] + Below(v.graph, caps, work[0]),
                   Targeted(v, caps, actionable, work[0], st));
        }
      }
    }
  }

  /**
   A target list that is not truncated leases exactly the reachable actionable elements, all in full
   within the output budget; a truncated one met the node cap, a child left out or that budget.
   */
  lemma ListFlagMeans(v: View, caps: Caps, root: Element, actionable: set<Element>)
    ensures var t := List(v, caps, actionable, [Item(root, 0)], NO_TARGETS);
            if t.truncated then
              || |t.visits| == caps.nodes || ActionableBytes(v, actionable, t.visits) > OUTPUT_BYTES
              || exists item <- t.visits :: !Complete(v.graph, caps, item)
            else
              && (forall e :: e in actionable && Reachable(v.graph, root, e) <==> e in t.leased)
              && (forall item <- t.visits :: Complete(v.graph, caps, item))
              && t.bytes == ActionableBytes(v, actionable, t.visits) <= OUTPUT_BYTES
  {
    var start := [Item(root, 0)];
    var t := List(v, caps, actionable, start, NO_TARGETS);
    ListEnds(v, caps, actionable, start, NO_TARGETS);
    hide List, Seen, Complete;
    forall e ensures !Seen([], e) { NothingSeen(e); }
    ListWithinSearch(v, caps, actionable, start, NO_TARGETS);
    if !t.truncated {
      forall e ensures Seen(t.visits, e) <==> Reachable(v.graph, root, e) {
        LocatedMeans(v.graph, caps, root, e, true);
      }
    }
  }
}
