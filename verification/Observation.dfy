/**
 The two walks that lease elements: the recursive tree and the breadth-first target list.
 An element is leased when its description still fits the output budget.
 */
module Observation {
  import opened Traversal

  /** The encoded size of an element's node in full, and without its value, label and identifier. */
  datatype Sizes = Sizes(full: nat, stripped: nat)

  datatype View = View(graph: Graph, sizes: map<Element, Sizes>)

  function SizesOf(v: View, e: Element): Sizes {
    if e in v.sizes then v.sizes[e] else Sizes(0, 0)
  }

  datatype Built = Built(visits: seq<Item>, leased: seq<Element>, truncated: bool, bytes: nat)

  /** What reserving output for an element costs: its full node, else its stripped one. */
  function Cost(v: View, e: Element, bytes: nat): nat {
    if bytes + SizesOf(v, e).full > OUTPUT_BYTES then SizesOf(v, e).stripped else SizesOf(v, e).full
  }

  predicate Fits(v: View, e: Element, bytes: nat) {
    bytes + Cost(v, e, bytes) <= OUTPUT_BYTES
  }

  /** The state after visiting an element and reserving its output. */
  function Enter(v: View, item: Item, st: Built): Built {
    var e := item.element;
    var shortened := st.truncated || st.bytes + SizesOf(v, e).full > OUTPUT_BYTES;
    if Fits(v, e, st.bytes)
    then Built(st.visits + [item], st.leased + [e], shortened, st.bytes + Cost(v, e, st.bytes))
    else Built(st.visits + [item], st.leased, true, st.bytes)
  }

  /** The state in which the children of a node that fits are built. */
  function Followed(v: View, caps: Caps, item: Item, st: Built): Built {
    var entered := Enter(v, item, st);
    entered.(truncated := entered.truncated || Cut(v.graph, caps, item))
  }

  function Build(v: View, caps: Caps, item: Item, st: Built): (r: Built)
    requires |st.visits| <= caps.nodes
    ensures |st.visits| <= |r.visits| <= caps.nodes
    decreases caps.nodes - |st.visits|, 0
  {
    if |st.visits| >= caps.nodes then st.(truncated := true)
    else if Seen(st.visits, item.element) then st
    else
      if Fits(v, item.element, st.bytes) then BuildAll(v, caps, Below(v.graph, caps, item), Followed(v, caps, item, st))
      else Enter(v, item, st)
  }

  function BuildAll(v: View, caps: Caps, items: seq<Item>, st: Built): (r: Built)
    requires |st.visits| <= caps.nodes
    ensures |st.visits| <= |r.visits| <= caps.nodes
    decreases caps.nodes - |st.visits|, |items|
  {
    if items == [] then st
    else if |st.visits| >= caps.nodes then st.(truncated := true)
    else BuildAll(v, caps, items[1..], Build(v, caps, items[0], st))
  }

  const NOTHING := Built([], [], false, 0)

  function Tree(v: View, caps: Caps, root: Element): Built {
    Build(v, caps, Item(root, 0), NOTHING)
  }

  class TreeBuilder {
    const view: View
    const caps: Caps
    var visited: seq<Item>
    var refs: seq<Element>
    var truncated: bool
    var outputBytes: nat

    function State(): Built
      reads this
    {
      Built(visited, refs, truncated, outputBytes)
    }

    constructor (view: View, caps: Caps)
      ensures this.view == view && this.caps == caps && State() == NOTHING
    {
      this.view, this.caps := view, caps;
      visited, refs, truncated, outputBytes := [], [], false, 0;
    }

    method ReserveNodeOutput(e: Element) returns (reserved: bool)
      modifies this`truncated, this`outputBytes
      ensures reserved == Fits(view, e, old(outputBytes))
      ensures outputBytes == old(outputBytes) + if reserved then Cost(view, e, old(outputBytes)) else 0
      ensures truncated <==> old(truncated) || !reserved || old(outputBytes) + SizesOf(view, e).full > OUTPUT_BYTES
    {
      var size := SizesOf(view, e).full;
      if outputBytes + size > OUTPUT_BYTES {
        truncated := true;
        size := SizesOf(view, e).stripped;
      }
      if outputBytes + size > OUTPUT_BYTES {
        truncated := true;
        return false;
      }
      outputBytes := outputBytes + size;
      reserved := true;
    }

    method BuildNode(item: Item)
      requires |visited| <= caps.nodes
      modifies this
      ensures |visited| <= caps.nodes
      ensures State() == Build(view, caps, item, old(State()))
      decreases caps.nodes - |visited|
    {
      if |visited| >= caps.nodes { truncated := true; return; }
      if Seen(visited, item.element) { return; }
      visited := visited + [item];
      var reserved := ReserveNodeOutput(item.element);
      if !reserved { return; }
      refs := refs + [item.element];
      if Cut(view.graph, caps, item) { truncated := true; }
      var children := Below(view.graph, caps, item);
      ghost var entered := State();
      assert entered == Enter(view, item, old(State())).(truncated := entered.truncated);
      var k := 0;
      while k < |children|
        invariant 0 <= k <= |children|
        invariant |old(visited)| < |visited| <= caps.nodes
        invariant BuildAll(view, caps, children[k..], State()) == BuildAll(view, caps, children, entered)
      {
        if |visited| >= caps.nodes { truncated := true; break; }
        assert children[k..][0] == children[k] && children[k..][1..] == children[k + 1..];
        BuildNode(children[k]);
        k := k + 1;
      }
    }
  }

  // ----- the recursive tree and the explicit stack visit alike

  /** Every visited element was leased: no node was dropped for output size. */
  predicate Lossless(st: Built) {
    |st.leased| == |st.visits|
  }

  /** Leases never outnumber visits, and a dropped node stays dropped. */
  lemma {:induction false} BuildLoss(v: View, caps: Caps, item: Item, st: Built)
    requires |st.visits| <= caps.nodes && |st.leased| <= |st.visits|
    ensures var r := Build(v, caps, item, st); |r.leased| <= |r.visits| && (Lossless(r) ==> Lossless(st))
    decreases caps.nodes - |st.visits|, 0
  {
    if |st.visits| < caps.nodes && !Seen(st.visits, item.element) && Fits(v, item.element, st.bytes) {
      BuildAllLoss(v, caps, Below(v.graph, caps, item), Followed(v, caps, item, st));
    }
  }

  lemma {:induction false} BuildAllLoss(v: View, caps: Caps, items: seq<Item>, st: Built)
    requires |st.visits| <= caps.nodes && |st.leased| <= |st.visits|
    ensures var r := BuildAll(v, caps, items, st); |r.leased| <= |r.visits| && (Lossless(r) ==> Lossless(st))
    decreases caps.nodes - |st.visits|, |items|
  {
    if items != [] && |st.visits| < caps.nodes {
      BuildLoss(v, caps, items[0], st);
      BuildAllLoss(v, caps, items[1..], Build(v, caps, items[0], st));
    }
  }

  /** A search that has made all the visits it may makes no more. */
  lemma {:induction false} FullSearch(g: Graph, caps: Caps, breadthFirst: bool, work: seq<Item>, visits: seq<Item>)
    requires |visits| == caps.nodes
    ensures Search(g, caps, breadthFirst, work, visits) == visits
    decreases |work|
  {
    if work != [] && Seen(visits, Head(breadthFirst, work).element) {
      FullSearch(g, caps, breadthFirst, Rest(breadthFirst, work), visits);
    }
  }

  /** Items whose elements were all visited before add nothing to a search. */
  lemma {:induction false} SeenSkipped(g: Graph, caps: Caps, items: seq<Item>, rest: seq<Item>, visits: seq<Item>)
    requires |visits| <= caps.nodes && forall i :: 0 <= i < |items| ==> Seen(visits, items[i].element)
    ensures Search(g, caps, false, rest + Reverse(items), visits) == Search(g, caps, false, rest, visits)
  {
    if items == [] {
      assert rest + Reverse(items) == rest;
    } else {
      assert rest + Reverse(items) == (rest + Reverse(items[1..])) + [items[0]];
      SeenSkipped(g, caps, items[1..], rest, visits);
    }
  }

  /** Where some item on top of the stack is new, a search with room left next visits one of them. */
  lemma {:induction false} NextVisitIsAbove(g: Graph, caps: Caps, items: seq<Item>, rest: seq<Item>, visits: seq<Item>,
                                            i: nat)
    requires |visits| < caps.nodes && i < |items| && !Seen(visits, items[i].element)
    ensures var all := Search(g, caps, false, rest + Reverse(items), visits);
            |all| > |visits| && all[|visits|] in items
    decreases |items|
  {
    var below := rest + Reverse(items[1..]);
    assert rest + Reverse(items) == below + [items[0]];
    if Seen(visits, items[0].element) {
      NextVisitIsAbove(g, caps, items[1..], rest, visits, i - 1);
    } else {
      SearchExtends(g, caps, false, Append(false, below, Below(g, caps, items[0])), visits + [items[0]]);
    }
  }

  /** Every node that does not fit the output budget fills the node cap or offers only elements visited before. */
  predicate Harmless(v: View, caps: Caps, item: Item, st: Built)
    requires |st.visits| <= caps.nodes
    decreases caps.nodes - |st.visits|, 0
  {
    |st.visits| == caps.nodes || Seen(st.visits, item.element) ||
    var entered := Enter(v, item, st);
    if Fits(v, item.element, st.bytes) then
      HarmlessAll(v, caps, Below(v.graph, caps, item), Followed(v, caps, item, st))
    else
      || |entered.visits| == caps.nodes
      || forall below <- Below(v.graph, caps, item) :: Seen(entered.visits, below.element)
  }

  predicate HarmlessAll(v: View, caps: Caps, items: seq<Item>, st: Built)
    requires |st.visits| <= caps.nodes
    decreases caps.nodes - |st.visits|, |items|
  {
    items == [] || |st.visits| == caps.nodes
    || (Harmless(v, caps, items[0], st) && HarmlessAll(v, caps, items[1..], Build(v, caps, items[0], st)))
  }

  /** Popping one item off the stack and searching on is building its subtree, then searching on. */
  lemma {:induction false} StackBuildsNode(v: View, caps: Caps, item: Item, rest: seq<Item>, st: Built)
    requires |st.visits| <= caps.nodes && Harmless(v, caps, item, st)
    ensures Search(v.graph, caps, false, rest + [item], st.visits)
            == Search(v.graph, caps, false, rest, Build(v, caps, item, st).visits)
    decreases caps.nodes - |st.visits|, 0
  {
    var work := rest + [item];
    assert Head(false, work) == item && Rest(false, work) == rest;
    if |st.visits| == caps.nodes {
      FullSearch(v.graph, caps, false, work, st.visits);
      FullSearch(v.graph, caps, false, rest, st.visits);
    } else if !Seen(st.visits, item.element) {
      var below := Below(v.graph, caps, item);
      if Fits(v, item.element, st.bytes) {
        StackBuildsAll(v, caps, below, rest, Followed(v, caps, item, st));
      } else if |st.visits| + 1 == caps.nodes {
        FullSearch(v.graph, caps, false, rest + Reverse(below), st.visits + [item]);
        FullSearch(v.graph, caps, false, rest, st.visits + [item]);
      } else {
        SeenSkipped(v.graph, caps, below, rest, st.visits + [item]);
      }
    }
  }

  lemma {:induction false} StackBuildsAll(v: View, caps: Caps, items: seq<Item>, rest: seq<Item>, st: Built)
    requires |st.visits| <= caps.nodes && HarmlessAll(v, caps, items, st)
    ensures Search(v.graph, caps, false, rest + Reverse(items), st.visits)
            == Search(v.graph, caps, false, rest, BuildAll(v, caps, items, st).visits)
    decreases caps.nodes - |st.visits|, |items|
  {
    if items == [] {
      assert rest + Reverse(items) == rest;
    } else if |st.visits| == caps.nodes {
      FullSearch(v.graph, caps, false, rest + Reverse(items), st.visits);
      FullSearch(v.graph, caps, false, rest, st.visits);
    } else {
      assert rest + Reverse(items) == (rest + Reverse(items[1..])) + [items[0]];
      StackBuildsNode(v, caps, items[0], rest + Reverse(items[1..]), st);
      StackBuildsAll(v, caps, items[1..], rest, Build(v, caps, items[0], st));
    }
  }

  /** Building only adds visits. */
  lemma {:induction false} BuildExtends(v: View, caps: Caps, item: Item, st: Built)
    requires |st.visits| <= caps.nodes
    ensures st.visits <= Build(v, caps, item, st).visits
    ensures |Build(v, caps, item, st).visits| > |st.visits| ==> Build(v, caps, item, st).visits[|st.visits|] == item
    decreases caps.nodes - |st.visits|, 0
  {
    if |st.visits| < caps.nodes && !Seen(st.visits, item.element) && Fits(v, item.element, st.bytes) {
      BuildAllExtends(v, caps, Below(v.graph, caps, item), Followed(v, caps, item, st));
    }
  }

  lemma {:induction false} BuildAllExtends(v: View, caps: Caps, items: seq<Item>, st: Built)
    requires |st.visits| <= caps.nodes
    ensures st.visits <= BuildAll(v, caps, items, st).visits
    ensures |BuildAll(v, caps, items, st).visits| > |st.visits|
            ==> BuildAll(v, caps, items, st).visits[|st.visits|] in items
    decreases caps.nodes - |st.visits|, |items|
  {
    if items != [] && |st.visits| < caps.nodes {
      BuildExtends(v, caps, items[0], st);
      BuildAllExtends(v, caps, items[1..], Build(v, caps, items[0], st));
    }
  }

  /** How many visits the builder has made once the first harmful node is among them. */
  function FirstHarm(v: View, caps: Caps, item: Item, st: Built): nat
    requires |st.visits| <= caps.nodes && !Harmless(v, caps, item, st)
    decreases caps.nodes - |st.visits|, 0
  {
    if Fits(v, item.element, st.bytes)
    then FirstHarmAmong(v, caps, Below(v.graph, caps, item), Followed(v, caps, item, st))
    else |st.visits| + 1
  }

  function FirstHarmAmong(v: View, caps: Caps, items: seq<Item>, st: Built): nat
    requires |st.visits| <= caps.nodes && !HarmlessAll(v, caps, items, st)
    decreases caps.nodes - |st.visits|, |items|
  {
    if !Harmless(v, caps, items[0], st) then FirstHarm(v, caps, items[0], st)
    else FirstHarmAmong(v, caps, items[1..], Build(v, caps, items[0], st))
  }

  /**
   Up to index p the two walks visit alike; from there the search goes deeper than `depth`, where
   the builder, if it visits at all, stays above that: they have parted.
   */
  ghost predicate PartedAt(p: nat, all: seq<Item>, built: seq<Item>, depth: nat) {
    && p < |all| && p <= |built| && all[..p] == built[..p] && all[p].depth > depth
    && (p < |built| ==> built[p].depth < all[p].depth)
  }

  lemma PartedStays(p: nat, all: seq<Item>, built: seq<Item>, more: seq<Item>, depth: nat)
    requires PartedAt(p, all, built, depth) && built <= more
    requires p == |built| < |more| ==> more[p].depth <= depth
    ensures PartedAt(p, all, more, depth)
  {
  }

  /** Where a node did harm, the search goes on below it, and the builder beside or above it. */
  lemma {:induction false} HarmParts(v: View, caps: Caps, item: Item, rest: seq<Item>, st: Built)
    requires |st.visits| <= caps.nodes && !Harmless(v, caps, item, st)
    ensures PartedAt(FirstHarm(v, caps, item, st), Search(v.graph, caps, false, rest + [item], st.visits),
                     Build(v, caps, item, st).visits, item.depth)
    decreases caps.nodes - |st.visits|, 0
  {
    var work := rest + [item];
    assert Head(false, work) == item && Rest(false, work) == rest;
    var below := Below(v.graph, caps, item);
    if Fits(v, item.element, st.bytes) {
      HarmPartsAll(v, caps, below, rest, Followed(v, caps, item, st), item.depth + 1);
    } else {
      var i :| 0 <= i < |below| && !Seen(st.visits + [item], below[i].element);
      NextVisitIsAbove(v.graph, caps, below, rest, st.visits + [item], i);
      SearchExtends(v.graph, caps, false, rest + Reverse(below), st.visits + [item]);
    }
  }

  lemma {:induction false} HarmPartsAll(v: View, caps: Caps, items: seq<Item>, rest: seq<Item>, st: Built, depth: nat)
    requires |st.visits| <= caps.nodes && !HarmlessAll(v, caps, items, st)
    requires forall item <- items :: item.depth == depth
    ensures PartedAt(FirstHarmAmong(v, caps, items, st), Search(v.graph, caps, false, rest + Reverse(items), st.visits),
                     BuildAll(v, caps, items, st).visits, depth)
    decreases caps.nodes - |st.visits|, |items|
  {
    var siblings := rest + Reverse(items[1..]);
    assert rest + Reverse(items) == siblings + [items[0]];
    var built := Build(v, caps, items[0], st);
    if Harmless(v, caps, items[0], st) {
      StackBuildsNode(v, caps, items[0], siblings, st);
      HarmPartsAll(v, caps, items[1..], rest, built, depth);
    } else {
      HarmParts(v, caps, items[0], siblings, st);
      BuildAllExtends(v, caps, items[1..], built);
      PartedStays(FirstHarm(v, caps, items[0], st), Search(v.graph, caps, false, siblings + [items[0]], st.visits),
                  built.visits, BuildAll(v, caps, items[1..], built).visits, depth);
    }
  }

  /**
   The stack search makes the tree builder's visits, in order and at their depths, exactly when no
   dropped node did harm.
   */
  lemma WalksAgreeIffHarmless(v: View, caps: Caps, root: Element)
    ensures Search(v.graph, caps, false, [Item(root, 0)], []) == Tree(v, caps, root).visits
            <==> Harmless(v, caps, Item(root, 0), NOTHING)
  {
    assert [] + [Item(root, 0)] == [Item(root, 0)];
    if Harmless(v, caps, Item(root, 0), NOTHING) {
      StackBuildsNode(v, caps, Item(root, 0), [], NOTHING);
    } else {
      HarmParts(v, caps, Item(root, 0), [], NOTHING);
    }
  }

  /** Where no node was dropped at all, none did harm. */
  lemma {:induction false} LosslessIsHarmless(v: View, caps: Caps, item: Item, st: Built)
    requires |st.visits| <= caps.nodes && |st.leased| <= |st.visits| && Lossless(Build(v, caps, item, st))
    ensures Harmless(v, caps, item, st)
    decreases caps.nodes - |st.visits|, 0
  {
    if |st.visits| < caps.nodes && !Seen(st.visits, item.element) {
      BuildLoss(v, caps, item, st);
      LosslessAllHarmless(v, caps, Below(v.graph, caps, item), Followed(v, caps, item, st));
    }
  }

  lemma {:induction false} LosslessAllHarmless(v: View, caps: Caps, items: seq<Item>, st: Built)
    requires |st.visits| <= caps.nodes && |st.leased| <= |st.visits| && Lossless(BuildAll(v, caps, items, st))
    ensures HarmlessAll(v, caps, items, st)
    decreases caps.nodes - |st.visits|, |items|
  {
    if items != [] && |st.visits| < caps.nodes {
      BuildLoss(v, caps, items[0], st);
      BuildAllLoss(v, caps, items[1..], Build(v, caps, items[0], st));
      LosslessIsHarmless(v, caps, items[0], st);
      LosslessAllHarmless(v, caps, items[1..], Build(v, caps, items[0], st));
    }
  }

  /** If no node was dropped, the stack search visits the tree's elements, in its order and at its depths. */
  lemma DepthFirstWalksAgree(v: View, caps: Caps, root: Element)
    requires Lossless(Tree(v, caps, root))
    ensures Search(v.graph, caps, false, [Item(root, 0)], []) == Tree(v, caps, root).visits
  {
    LosslessIsHarmless(v, caps, Item(root, 0), NOTHING);
    WalksAgreeIffHarmless(v, caps, root);
  }

  /** Every lease is of a visited element. */
  lemma {:induction false} LeasedWasVisited(v: View, caps: Caps, item: Item, st: Built)
    requires |st.visits| <= caps.nodes && forall e <- st.leased :: Seen(st.visits, e)
    ensures forall e <- Build(v, caps, item, st).leased :: Seen(Build(v, caps, item, st).visits, e)
    decreases caps.nodes - |st.visits|, 0
  {
    if |st.visits| < caps.nodes && !Seen(st.visits, item.element) {
      var entered := Enter(v, item, st);
      forall e <- entered.leased ensures Seen(entered.visits, e) {
        SeenAppend(st.visits, item, e);
      }
      if Fits(v, item.element, st.bytes) {
        AllLeasedWereVisited(v, caps, Below(v.graph, caps, item), Followed(v, caps, item, st));
      }
    }
  }

  lemma {:induction false} AllLeasedWereVisited(v: View, caps: Caps, items: seq<Item>, st: Built)
    requires |st.visits| <= caps.nodes && forall e <- st.leased :: Seen(st.visits, e)
    ensures forall e <- BuildAll(v, caps, items, st).leased :: Seen(BuildAll(v, caps, items, st).visits, e)
    decreases caps.nodes - |st.visits|, |items|
  {
    if items != [] && |st.visits| < caps.nodes {
      LeasedWasVisited(v, caps, items[0], st);
      AllLeasedWereVisited(v, caps, items[1..], Build(v, caps, items[0], st));
    }
  }

  /** The part of the tree that the search walks again: all of it, or its visits up to the first harmful node. */
  function WalkedAgain(v: View, caps: Caps, root: Element): seq<Item> {
    var built := Tree(v, caps, root).visits;
    if Harmless(v, caps, Item(root, 0), NOTHING) then built
    else
      HarmParts(v, caps, Item(root, 0), [], NOTHING);
      built[..FirstHarm(v, caps, Item(root, 0), NOTHING)]
  }

  /** The search walks that part again, in order and at the same depths, and where a node did harm no more than that. */
  lemma SearchWalksAgain(v: View, caps: Caps, root: Element)
    ensures var part, all := WalkedAgain(v, caps, root), Search(v.graph, caps, false, [Item(root, 0)], []);
            && part <= all
            && (!Harmless(v, caps, Item(root, 0), NOTHING) ==>
                  |part| < |all| && !(part + [all[|part|]] <= Tree(v, caps, root).visits))
  {
    WalksAgreeIffHarmless(v, caps, root);
    if !Harmless(v, caps, Item(root, 0), NOTHING) {
      assert [] + [Item(root, 0)] == [Item(root, 0)];
      HarmParts(v, caps, Item(root, 0), [], NOTHING);
    }
  }

  /**
   An element leased by a tree observation is found again in the unchanged tree, unless a node did
   harm before it was visited.
   */
  lemma LeasedElementIsFound(v: View, caps: Caps, root: Element, e: Element)
    requires e in Tree(v, caps, root).leased
    requires Harmless(v, caps, Item(root, 0), NOTHING) || Seen(WalkedAgain(v, caps, root), e)
    ensures Seen(Search(v.graph, caps, false, [Item(root, 0)], []), e)
  {
    LeasedWasVisited(v, caps, Item(root, 0), NOTHING);
    SearchWalksAgain(v, caps, root);
    SeenPrefix(WalkedAgain(v, caps, root), Search(v.graph, caps, false, [Item(root, 0)], []), e);
  }

  // ----- the breadth-first target list

  datatype Targets = Targets(visits: seq<Item>, leased: seq<Element>, truncated: bool, bytes: nat)

  const NO_TARGETS := Targets([], [], false, 0)

  /** The state after visiting an item that is not actionable or fits the output budget. */
  function Targeted(v: View, caps: Caps, actionable: set<Element>, item: Item, st: Targets): Targets {
    var cut := st.truncated || Cut(v.graph, caps, item);
    if item.element in actionable
    then Targets(st.visits + [item], st.leased + [item.element], cut, st.bytes + SizesOf(v, item.element).full)
    else st.(visits := st.visits + [item], truncated := cut)
  }

  /** The actionable elements leased from a queue on, until the node cap or the output budget ends it. */
  function List(v: View, caps: Caps, actionable: set<Element>, work: seq<Item>, st: Targets): Targets
    requires |st.visits| <= caps.nodes
    decreases caps.nodes - |st.visits|, |work|
  {
    if work == [] then st
    else if |st.visits| == caps.nodes then st.(truncated := true)
    else if Seen(st.visits, work[0].element) then List(v, caps, actionable, work[1..], st)
    else if work[0].element in actionable && st.bytes + SizesOf(v, work[0].element).full > OUTPUT_BYTES
    then st.(visits := st.visits + [work[0]], truncated := true)
    else List(v, caps, actionable, work[1..] + Below(v.graph, caps, work[0]),
              Targeted(v, caps, actionable, work[0], st))
  }

  /** Leases the actionable elements of a window, breadth first. */
  method ObserveTargets(v: View, caps: Caps, root: Element, actionable: set<Element>) returns (r: Targets)
    ensures r == List(v, caps, actionable, [Item(root, 0)], NO_TARGETS)
  {
    hide Seen, Below, Cut;
    var visited: seq<Item>, leased: seq<Element>, truncated, bytes: nat := [], [], false, 0;
    var queue := [Item(root, 0)];
    var cursor := 0;
    while cursor < |queue| && |visited| < caps.nodes
      invariant 0 <= cursor <= |queue| && |visited| <= caps.nodes
      invariant List(v, caps, actionable, queue[cursor..], Targets(visited, leased, truncated, bytes))
                == List(v, caps, actionable, [Item(root, 0)], NO_TARGETS)
      decreases caps.nodes - |visited|, |queue| - cursor
    {
      ghost var work := queue[cursor..];
      var item := queue[cursor];
      cursor := cursor + 1;
      assert work[0] == item && work[1..] == queue[cursor..];
      if Seen(visited, item.element) { continue; }
      visited := visited + [item];
      if item.element in actionable {
        var size := SizesOf(v, item.element).full;
        if bytes + size > OUTPUT_BYTES {
          return Targets(visited, leased, true, bytes);
        }
        bytes := bytes + size;
        leased := leased + [item.element];
      }
      if Cut(v.graph, caps, item) { truncated := true; }
      ghost var before := queue;
      queue := queue + Below(v.graph, caps, item);
      assert queue[cursor..] == before[cursor..] + Below(v.graph, caps, item);
    }
    if cursor < |queue| { truncated := true; }
    assert cursor == |queue| ==> queue[cursor..] == [];
    r := Targets(visited, leased, truncated, bytes);
  }

  /** Leases are actionable and visited; untruncated, they are all that is actionable among the visits. */
  ghost predicate TargetsSound(actionable: set<Element>, t: Targets) {
    && (forall e <- t.leased :: e in actionable && Seen(t.visits, e))
    && (!t.truncated ==> forall e <- actionable :: Seen(t.visits, e) ==> e in t.leased)
  }

  lemma TargetedSound(v: View, caps: Caps, actionable: set<Element>, item: Item, st: Targets)
    requires TargetsSound(actionable, st)
    ensures TargetsSound(actionable, Targeted(v, caps, actionable, item, st))
    ensures TargetsSound(actionable, st.(visits := st.visits + [item], truncated := true))
    ensures TargetsSound(actionable, st.(truncated := true))
  {
    hide Seen, Cut;
    forall e ensures Seen(st.visits + [item], e) <==> Seen(st.visits, e) || item.element == e {
      SeenAppend(st.visits, item, e);
    }
  }

  /**
   The target list visits a first part of what the breadth-first search visits, and all of it when
   nothing was truncated; then no cap stopped the search, and every actionable element is leased.
   */
  lemma {:induction false} ListWithinSearch(v: View, caps: Caps, actionable: set<Element>, work: seq<Item>, st: Targets)
    requires |st.visits| <= caps.nodes && TargetsSound(actionable, st)
    ensures var r := List(v, caps, actionable, work, st);
            && TargetsSound(actionable, r)
            && r.visits <= Search(v.graph, caps, true, work, st.visits)
            && (!r.truncated ==> !st.truncated && r.visits == Search(v.graph, caps, true, work, st.visits)
                                 && !Stopped(v.graph, caps, true, work, st.visits))
    decreases caps.nodes - |st.visits|, |work|
  {
    hide Seen, Below, Cut, TargetsSound;
    if work != [] {
      var item, rest := Head(true, work), Rest(true, work);
      if |st.visits| == caps.nodes {
        SearchExtends(v.graph, caps, true, work, st.visits);
        TargetedSound(v, caps, actionable, item, st);
      } else if Seen(st.visits, item.element) {
        ListWithinSearch(v, caps, actionable, rest, st);
      } else {
        TargetedSound(v, caps, actionable, item, st);
        var next := Append(true, rest, Below(v.graph, caps, item));
        SearchExtends(v.graph, caps, true, next, st.visits + [item]);
        if item.element !in actionable || st.bytes + SizesOf(v, item.element).full <= OUTPUT_BYTES {
          ListWithinSearch(v, caps, actionable, next, Targeted(v, caps, actionable, item, st));
        }
      }
    }
  }

  /** Every element on a window's target list is found again, breadth first, in the unchanged window. */
  lemma ListedElementIsFound(v: View, caps: Caps, root: Element, actionable: set<Element>, e: Element)
    requires e in List(v, caps, actionable, [Item(root, 0)], NO_TARGETS).leased
    ensures e in actionable && Seen(Search(v.graph, caps, true, [Item(root, 0)], []), e)
  {
    hide List, Seen;
    forall x ensures !Seen([], x) { NothingSeen(x); }
    ListWithinSearch(v, caps, actionable, [Item(root, 0)], NO_TARGETS);
    SeenPrefix(List(v, caps, actionable, [Item(root, 0)], NO_TARGETS).visits,
               Search(v.graph, caps, true, [Item(root, 0)], []), e);
  }
}
