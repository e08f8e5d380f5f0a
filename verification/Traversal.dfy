/**
 The accessibility-tree walks of native/macos/AXHelper.swift over one unchanging element graph.

 Elements may share children and form cycles. Three walks read the graph: the recursive tree
 builder and the breadth-first target list, which lease elements, and the worklist search that
 finds a leased element again before a mutation. A fourth scan proves a selector unique.
 */
module Traversal {

  type Element = nat
  type Graph = map<Element, seq<Element>>

  datatype Caps = Caps(nodes: nat, depth: nat, children: nat)

  const TREE := Caps(128, 10, 32)
  const SCAN := Caps(1024, 16, 256)
  const OUTPUT_BYTES: nat := 48 * 1024

  /** An element and the depth at which a walk reached it. */
  datatype Item = Item(element: Element, depth: nat)

  function Children(g: Graph, e: Element): seq<Element> {
    if e in g then g[e] else []
  }

  /** The children a walk may follow: the first of them, up to the cap. */
  function Offered(g: Graph, caps: Caps, e: Element): seq<Element> {
    var all := Children(g, e);
    if |all| <= caps.children then all else all[..caps.children]
  }

  function Below(g: Graph, caps: Caps, item: Item): seq<Item> {
    if item.depth >= caps.depth then []
    else
      var next := Offered(g, caps, item.element);
      seq(|next|, i requires 0 <= i < |next| => Item(next[i], item.depth + 1))
  }

  /** The walk does not follow every child of this item. */
  predicate Cut(g: Graph, caps: Caps, item: Item) {
    if item.depth >= caps.depth then Children(g, item.element) != [] else |Children(g, item.element)| > caps.children
  }

  predicate Seen(visits: seq<Item>, e: Element) {
    exists i :: 0 <= i < |visits| && visits[i].element == e
  }

  function Reverse<T>(s: seq<T>): (r: seq<T>)
    ensures |r| == |s| && forall i :: 0 <= i < |s| ==> r[i] == s[|s| - 1 - i]
  {
    if s == [] then [] else Reverse(s[1..]) + [s[0]]
  }

  // ----- the worklist search, as the visits it makes and whether a cap stopped it

  function Head(breadthFirst: bool, work: seq<Item>): Item
    requires work != []
  {
    if breadthFirst then work[0] else work[|work| - 1]
  }

  function Rest(breadthFirst: bool, work: seq<Item>): seq<Item>
    requires work != []
  {
    if breadthFirst then work[1..] else work[..|work| - 1]
  }

  function Append(breadthFirst: bool, work: seq<Item>, next: seq<Item>): seq<Item> {
    work + if breadthFirst then next else Reverse(next)
  }

  function Search(g: Graph, caps: Caps, breadthFirst: bool, work: seq<Item>, visits: seq<Item>): seq<Item>
    requires |visits| <= caps.nodes
    decreases caps.nodes - |visits|, |work|
  {
    if work == [] then visits
    else
      var item, rest := Head(breadthFirst, work), Rest(breadthFirst, work);
      if Seen(visits, item.element) then Search(g, caps, breadthFirst, rest, visits)
      else if |visits| == caps.nodes then visits
      else Search(g, caps, breadthFirst, Append(breadthFirst, rest, Below(g, caps, item)), visits + [item])
  }

  predicate Stopped(g: Graph, caps: Caps, breadthFirst: bool, work: seq<Item>, visits: seq<Item>)
    requires |visits| <= caps.nodes
    decreases caps.nodes - |visits|, |work|
  {
    if work == [] then false
    else
      var item, rest := Head(breadthFirst, work), Rest(breadthFirst, work);
      if Seen(visits, item.element) then Stopped(g, caps, breadthFirst, rest, visits)
      else if |visits| == caps.nodes then true
      else
        || Cut(g, caps, item)
        || Stopped(g, caps, breadthFirst, Append(breadthFirst, rest, Below(g, caps, item)), visits + [item])
  }

  datatype Located = Found | Absent | LimitExceeded

  /** A search from the root has come as far as this worklist, these visits and this limit flag. */
  ghost predicate Reached(g: Graph, caps: Caps, breadthFirst: bool, root: Element, work: seq<Item>, visits: seq<Item>,
                          limited: bool)
  {
    && |visits| <= caps.nodes
    && Search(g, caps, breadthFirst, work, visits) == Search(g, caps, breadthFirst, [Item(root, 0)], [])
    && ((limited || Stopped(g, caps, breadthFirst, work, visits))
        <==> Stopped(g, caps, breadthFirst, [Item(root, 0)], []))
  }

  lemma ReachedSkip(g: Graph, caps: Caps, breadthFirst: bool, root: Element, work: seq<Item>, visits: seq<Item>,
                    limited: bool)
    requires Reached(g, caps, breadthFirst, root, work, visits, limited) && work != []
    requires Seen(visits, Head(breadthFirst, work).element)
    ensures Reached(g, caps, breadthFirst, root, Rest(breadthFirst, work), visits, limited)
  {
  }

  lemma ReachedCap(g: Graph, caps: Caps, breadthFirst: bool, root: Element, work: seq<Item>, visits: seq<Item>,
                   limited: bool)
    requires Reached(g, caps, breadthFirst, root, work, visits, limited) && work != []
    requires !Seen(visits, Head(breadthFirst, work).element) && |visits| == caps.nodes
    ensures Search(g, caps, breadthFirst, [Item(root, 0)], []) == visits
    ensures Stopped(g, caps, breadthFirst, [Item(root, 0)], [])
  {
  }

  /** A search only adds visits. */
  lemma {:induction false} SearchExtends(g: Graph, caps: Caps, breadthFirst: bool, work: seq<Item>, visits: seq<Item>)
    requires |visits| <= caps.nodes
    ensures visits <= Search(g, caps, breadthFirst, work, visits)
    ensures |Search(g, caps, breadthFirst, work, visits)| <= caps.nodes
    decreases caps.nodes - |visits|, |work|
  {
    if work != [] {
      var item, rest := Head(breadthFirst, work), Rest(breadthFirst, work);
      if Seen(visits, item.element) {
        SearchExtends(g, caps, breadthFirst, rest, visits);
      } else if |visits| < caps.nodes {
        SearchExtends(g, caps, breadthFirst, Append(breadthFirst, rest, Below(g, caps, item)), visits + [item]);
      }
    }
  }

  lemma ReachedVisit(g: Graph, caps: Caps, breadthFirst: bool, root: Element, work: seq<Item>, visits: seq<Item>,
                     limited: bool)
    requires Reached(g, caps, breadthFirst, root, work, visits, limited) && work != []
    requires !Seen(visits, Head(breadthFirst, work).element) && |visits| < caps.nodes
    ensures var item := Head(breadthFirst, work);
            Reached(g, caps, breadthFirst, root, Append(breadthFirst, Rest(breadthFirst, work), Below(g, caps, item)),
                    visits + [item], limited || Cut(g, caps, item))
    ensures visits + [Head(breadthFirst, work)] <= Search(g, caps, breadthFirst, [Item(root, 0)], [])
  {
    var item := Head(breadthFirst, work);
    SearchExtends(g, caps, breadthFirst, Append(breadthFirst, Rest(breadthFirst, work), Below(g, caps, item)),
                  visits + [item]);
  }

  lemma ReachedStart(g: Graph, caps: Caps, breadthFirst: bool, root: Element)
    ensures Reached(g, caps, breadthFirst, root, [Item(root, 0)], [], false)
  {
  }

  lemma ReachedEnd(g: Graph, caps: Caps, breadthFirst: bool, root: Element, visits: seq<Item>, limited: bool)
    requires Reached(g, caps, breadthFirst, root, [], visits, limited)
    ensures Search(g, caps, breadthFirst, [Item(root, 0)], []) == visits
    ensures Stopped(g, caps, breadthFirst, [Item(root, 0)], []) <==> limited
  {
  }

  lemma SeenAppend(visits: seq<Item>, item: Item, e: Element)
    ensures Seen(visits + [item], e) <==> Seen(visits, e) || item.element == e
  {
    if item.element == e { assert (visits + [item])[|visits|] == item; }
    if Seen(visits, e) {
      var i :| 0 <= i < |visits| && visits[i].element == e;
      assert (visits + [item])[i] == visits[i];
    }
  }

  lemma SeenPrefix(visits: seq<Item>, more: seq<Item>, e: Element)
    requires visits <= more && Seen(visits, e)
    ensures Seen(more, e)
  {
  }

  lemma NothingSeen(e: Element)
    ensures !Seen([], e)
  {
  }

  method LocateElement(g: Graph, caps: Caps, root: Element, target: Element, breadthFirst: bool)
    returns (located: Located)
    ensures located.Found? <==> Seen(Search(g, caps, breadthFirst, [Item(root, 0)], []), target)
    ensures located.LimitExceeded? ==> Stopped(g, caps, breadthFirst, [Item(root, 0)], [])
    ensures located.Absent? ==> !Stopped(g, caps, breadthFirst, [Item(root, 0)], [])
  {
    hide Search, Stopped, Seen, Reached, Below, Cut;
    var visited: seq<Item> := [];
    var limitExceeded := false;
    var queue := [Item(root, 0)];
    var cursor := 0;
    ReachedStart(g, caps, breadthFirst, root);
    NothingSeen(target);
    while if breadthFirst then cursor < |queue| else queue != []
      invariant 0 <= cursor <= |queue| && (!breadthFirst ==> cursor == 0)
      invariant |visited| <= caps.nodes && !Seen(visited, target)
      invariant Reached(g, caps, breadthFirst, root, queue[cursor..], visited, limitExceeded)
      decreases caps.nodes - |visited|, |queue| - cursor
    {
      ghost var work := queue[cursor..];
      var item := if breadthFirst then queue[cursor] else queue[|queue| - 1];
      if breadthFirst { cursor := cursor + 1; } else { queue := queue[..|queue| - 1]; }
      assert item == Head(breadthFirst, work) && queue[cursor..] == Rest(breadthFirst, work);
      if Seen(visited, item.element) {
        ReachedSkip(g, caps, breadthFirst, root, work, visited, limitExceeded);
        continue;
      }
      if |visited| >= caps.nodes {
        ReachedCap(g, caps, breadthFirst, root, work, visited, limitExceeded);
        return LimitExceeded;
      }
      ReachedVisit(g, caps, breadthFirst, root, work, visited, limitExceeded);
      SeenAppend(visited, item, target);
      visited := visited + [item];
      if item.element == target {
        SeenPrefix(visited, Search(g, caps, breadthFirst, [Item(root, 0)], []), target);
        return Found;
      }
      if Cut(g, caps, item) { limitExceeded := true; }
      var next := Below(g, caps, item);
      ghost var before := queue;
      queue := queue + if breadthFirst then next else Reverse(next);
      assert queue[cursor..] == Append(breadthFirst, before[cursor..], next);
    }
    assert queue[cursor..] == [];
    ReachedEnd(g, caps, breadthFirst, root, visited, limitExceeded);
    located := if limitExceeded then LimitExceeded else Absent;
  }
}
