/**
 The partition itself: serial groups first, then every other file to a shard. Recorded durations
 decide balance; they never decide coverage.
 */
module WindowsPartition {
  import opened Outcomes
  import opened Collections
  import opened ShardBound
  import opened WindowsShards
  import opened WindowsAllocation
  import opened WindowsDurations

  // ----- serial groups

  predicate SelectorLive(nodes: seq<Node>, selector: string) {
    exists n <- nodes :: Matches(n, selector)
  }

  predicate Live(nodes: seq<Node>, group: SerialGroup) {
    && Selected(nodes, group.selectors) != []
    && forall i :: 0 <= i < |group.selectors| ==> SelectorLive(nodes, group.selectors[i])
  }

  /** Serial groups select apart. */
  ghost predicate Separate(serial: seq<SerialGroup>, nodes: seq<Node>) {
    forall i, j, n :: 0 <= i < j < |serial| && n in nodes ==>
      !(MatchesAny(n, serial[i].selectors) && MatchesAny(n, serial[j].selectors))
  }

  ghost predicate SerialFit(serial: seq<SerialGroup>, nodes: seq<Node>) {
    (forall i :: 0 <= i < |serial| ==> Live(nodes, serial[i])) && Separate(serial, nodes)
  }

  function SerialEntry(nodes: seq<Node>, group: SerialGroup): Entry {
    Entry(Serial(group.name), Group(group.selectors, SortText(Selected(nodes, group.selectors))))
  }

  function SerialEntries(serial: seq<SerialGroup>, nodes: seq<Node>): (r: seq<Entry>)
    ensures |r| == |serial| && forall i :: 0 <= i < |r| ==> r[i] == SerialEntry(nodes, serial[i])
  {
    seq(|serial|, i requires 0 <= i < |serial| => SerialEntry(nodes, serial[i]))
  }

  function SerialNodes(serial: seq<SerialGroup>, nodes: seq<Node>): set<Node> {
    set n | n in nodes && InSerial(serial, n)
  }

  /** The next serial group adds its own nodes, and selects apart exactly when those are new. */
  lemma SerialStep(serial: seq<SerialGroup>, nodes: seq<Node>, k: nat)
    requires k < |serial|
    ensures forall n :: InSerial(serial[..k + 1], n) <==> InSerial(serial[..k], n) || MatchesAny(n, serial[k].selectors)
    ensures Separate(serial[..k + 1], nodes) <==>
              && Separate(serial[..k], nodes)
              && forall n <- nodes :: !(InSerial(serial[..k], n) && MatchesAny(n, serial[k].selectors))
  {
    hide MatchesAny;
    var upto, to := serial[..k + 1], serial[..k];
    assert upto[k] == serial[k];
    forall n ensures InSerial(upto, n) <==> InSerial(to, n) || MatchesAny(n, serial[k].selectors) {
      if InSerial(to, n) {
        var i :| 0 <= i < k && MatchesAny(n, to[i].selectors);
        assert MatchesAny(n, upto[i].selectors);
      }
      if i :| 0 <= i <= k && MatchesAny(n, upto[i].selectors) {
        if i < k { assert MatchesAny(n, to[i].selectors); }
      }
    }
    if Separate(upto, nodes) {
      forall i, j, n | 0 <= i < j < k && n in nodes
        ensures !(MatchesAny(n, to[i].selectors) && MatchesAny(n, to[j].selectors)) {
        assert to[i] == upto[i] && to[j] == upto[j];
      }
      forall n <- nodes ensures !(InSerial(to, n) && MatchesAny(n, serial[k].selectors)) {
        if i :| 0 <= i < k && MatchesAny(n, to[i].selectors) { assert to[i] == upto[i]; }
      }
    }
    if Separate(to, nodes) && forall n <- nodes :: !(InSerial(to, n) && MatchesAny(n, serial[k].selectors)) {
      forall i, j, n | 0 <= i < j <= k && n in nodes
        ensures !(MatchesAny(n, upto[i].selectors) && MatchesAny(n, upto[j].selectors)) {
        assert to[i] == upto[i];
        if j < k { assert to[j] == upto[j]; }
      }
    }
  }

  lemma SeparatePrefix(serial: seq<SerialGroup>, nodes: seq<Node>, k: nat)
    requires k <= |serial| && Separate(serial, nodes)
    ensures Separate(serial[..k], nodes)
  {
    hide MatchesAny;
  }

  lemma SerialNone(serial: seq<SerialGroup>, nodes: seq<Node>)
    ensures SerialNodes(serial[..0], nodes) == {} && Separate(serial[..0], nodes)
  {
  }

  lemma SelectedIn(nodes: seq<Node>, selectors: seq<string>)
    ensures forall n :: n in Selected(nodes, selectors) <==> n in nodes && MatchesAny(n, selectors)
  {
    forall n ensures n in Selected(nodes, selectors) <==> n in nodes && MatchesAny(n, selectors) {
      WhereIn(m => MatchesAny(m, selectors), nodes, n);
    }
  }

  /** A selector that matches a selected node matches a collected one, and the other way around. */
  lemma LiveMeans(nodes: seq<Node>, group: SerialGroup)
    ensures Live(nodes, group) <==>
              && Selected(nodes, group.selectors) != []
              && forall i :: 0 <= i < |group.selectors| ==>
                   SelectorLive(Selected(nodes, group.selectors), group.selectors[i])
  {
    SelectedIn(nodes, group.selectors);
    var selected := Selected(nodes, group.selectors);
    forall i | 0 <= i < |group.selectors|
      ensures SelectorLive(selected, group.selectors[i]) <==> SelectorLive(nodes, group.selectors[i])
    {
      if n :| n in nodes && Matches(n, group.selectors[i]) {
        assert MatchesAny(n, group.selectors) && n in selected;
      }
    }
  }

  /** The serial groups, or the reason one of them cannot be formed. */
  method GroupSerial(serial: seq<SerialGroup>, nodes: seq<Node>)
    returns (groups: Result<seq<Entry>, PlanError>, serialNodes: set<Node>)
    ensures groups.Ok? <==> SerialFit(serial, nodes)
    ensures groups.Ok? ==> groups.value == SerialEntries(serial, nodes) && serialNodes == SerialNodes(serial, nodes)
    ensures groups.Err? ==> groups.error in {SerialEmptyOrOverlapping, SelectorGone}
  {
    hide Live, Separate, MatchesAny, InSerial, SerialEntry;
    var entries: seq<Entry> := [];
    serialNodes := {};
    SerialNone(serial, nodes);
    for k := 0 to |serial|
      invariant forall i :: 0 <= i < k ==> Live(nodes, serial[i])
      invariant Separate(serial[..k], nodes)
      invariant serialNodes == SerialNodes(serial[..k], nodes)
      invariant |entries| == k && forall i :: 0 <= i < k ==> entries[i] == SerialEntry(nodes, serial[i])
    {
      var group := serial[k];
      var selected := Selected(nodes, group.selectors);
      SerialStep(serial, nodes, k);
      SelectedIn(nodes, group.selectors);
      if selected == [] || exists n <- selected :: n in serialNodes {
        if SerialFit(serial, nodes) {
          SeparatePrefix(serial, nodes, k + 1);
          LiveMeans(nodes, group);
        }
        return Err(SerialEmptyOrOverlapping), serialNodes;
      }
      LiveMeans(nodes, group);
      if exists i :: 0 <= i < |group.selectors| && !SelectorLive(selected, group.selectors[i]) {
        return Err(SelectorGone), serialNodes;
      }
      serialNodes := serialNodes + set n | n in selected;
      entries := entries + [SerialEntry(nodes, group)];
    }
    assert serial[..|serial|] == serial;
    assert entries == SerialEntries(serial, nodes);
    groups := Ok(entries);
  }

  // ----- the files of the remaining nodes

  function Outside(nodes: seq<Node>, serialNodes: set<Node>): seq<Node> {
    Where(n => n !in serialNodes, nodes)
  }

  /** `paths` lists the files of these nodes and `byFile` maps each to its own nodes. */
  ghost predicate Filed(nodes: seq<Node>, paths: seq<File>, byFile: map<File, seq<Node>>) {
    && Unique(paths) && (set p | p in paths) == Files(nodes) == byFile.Keys
    && forall p <- byFile :: byFile[p] == NodesOf(nodes, p) && byFile[p] != []
  }

  lemma NodesOfAppend(nodes: seq<Node>, node: Node)
    ensures forall p :: NodesOf(nodes + [node], p) == NodesOf(nodes, p) + if FileOf(node) == p then [node] else []
    ensures Files(nodes + [node]) == Files(nodes) + {FileOf(node)}
  {
    hide FileOf;
    forall p ensures NodesOf(nodes + [node], p) == NodesOf(nodes, p) + if FileOf(node) == p then [node] else [] {
      WhereAppend(n => FileOf(n) == p, nodes, node);
    }
  }

  lemma NoNodesOf(nodes: seq<Node>, path: File)
    ensures NodesOf(nodes, path) == [] <==> path !in Files(nodes)
  {
    hide FileOf;
    if NodesOf(nodes, path) != [] { WhereIn(n => FileOf(n) == path, nodes, NodesOf(nodes, path)[0]); }
    if n :| n in nodes && FileOf(n) == path { WhereIn(m => FileOf(m) == path, nodes, n); }
  }

  lemma FiledStep(nodes: seq<Node>, paths: seq<File>, byFile: map<File, seq<Node>>, node: Node)
    requires Filed(nodes, paths, byFile)
    ensures var path := FileOf(node);
            if path in byFile then Filed(nodes + [node], paths, byFile[path := byFile[path] + [node]])
            else Filed(nodes + [node], paths + [path], byFile[path := [node]])
  {
    hide FileOf, NodesOf, Files;
    NodesOfAppend(nodes, node);
    NoNodesOf(nodes, FileOf(node));
  }

  lemma OutsideAppend(nodes: seq<Node>, serialNodes: set<Node>, node: Node)
    ensures Outside(nodes + [node], serialNodes) 
            == if node in serialNodes then Outside(nodes, serialNodes) else Outside(nodes, serialNodes) + [node]
  {
    WhereAppend(n => n !in serialNodes, nodes, node);
  }

  /** Files in order of first appearance, each with its nodes. */
  method ByFile(nodes: seq<Node>, serialNodes: set<Node>) returns (paths: seq<File>, byFile: map<File, seq<Node>>)
    ensures Filed(Outside(nodes, serialNodes), paths, byFile)
  {
    paths, byFile := [], map[];
    assert nodes[..0] == [];
    for k := 0 to |nodes|
      invariant Filed(Outside(nodes[..k], serialNodes), paths, byFile)
    {
      hide Filed, FileOf, Outside;
      var node := nodes[k];
      assert nodes[..k + 1] == nodes[..k] + [node];
      OutsideAppend(nodes[..k], serialNodes, node);
      if node !in serialNodes {
        var path := FileOf(node);
        FiledStep(Outside(nodes[..k], serialNodes), paths, byFile, node);
        if path !in byFile {
          paths := paths + [path];
          byFile := byFile[path := [node]];
        } else {
          byFile := byFile[path := byFile[path] + [node]];
        }
      }
    }
    assert nodes[..|nodes|] == nodes;
  }

  // ----- estimated durations

  method Weigh(paths: seq<File>, byFile: map<File, seq<Node>>, history: seq<Cost>, fallback: real)
    returns (weights: Option<map<File, real>>)
    requires (set p | p in paths) == byFile.Keys
    ensures weights.Some? <==> forall p <- paths :: Counted(history, p)
    ensures weights.Some? ==> weights.value.Keys == byFile.Keys
    ensures weights.Some? ==> forall p <- paths :: Weighs(history, fallback, p, |byFile[p]|, weights.value[p])
  {
    hide Weight, Weighs, Counted;
    var found: map<File, real> := map[];
    for k := 0 to |paths|
      invariant forall p <- paths[..k] :: Counted(history, p)
      invariant found.Keys == set p | p in paths[..k]
      invariant forall p <- found :: p in byFile && Weighs(history, fallback, p, |byFile[p]|, found[p])
    {
      var path := paths[k];
      assert path in paths && paths[..k + 1] == paths[..k] + [path];
      WeightMeans(history, fallback, path, |byFile[path]|);
      var weight := Weight(history, fallback, path, |byFile[path]|);
      if weight.None? { return None; }
      found := found[path := weight.value];
    }
    assert paths[..|paths|] == paths;
    weights := Some(found);
  }

  /** Heavier files are dealt first, and files of equal weight by name. */
  ghost predicate Queued(order: seq<File>, weights: seq<real>) {
    && |order| == |weights|
    && forall j, k :: 0 <= j < k < |order| ==>
         weights[j] > weights[k] || (weights[j] == weights[k] && TextBefore(order[j], order[k]))
  }

  lemma SortedIsQueued(order: seq<File>, weights: map<File, real>)
    requires Sorted(Heavier(weights), order) && forall p <- order :: p in weights
    ensures Queued(order, WeightsOf(order, weights))
  {
    WeightsOfAt(order, weights);
    hide WeightsOf;
    forall j, k | 0 <= j < k < |order|
      ensures weights[order[j]] > weights[order[k]]
              || (weights[order[j]] == weights[order[k]] && TextBefore(order[j], order[k]))
    {
      assert order[j] in order && order[k] in order;
      assert Heavier(weights)(order[j], order[k]);
    }
  }

  lemma QueuedIsHeaviestFirst(order: seq<File>, weights: seq<real>)
    requires Queued(order, weights)
    ensures HeaviestFirst(weights)
  {
  }

  /** Sorting by weight puts the heaviest files first and loses none. */
  lemma HeaviestFirstOrder(paths: seq<File>, weights: map<File, real>)
    requires forall p <- paths :: p in weights && weights[p] > 0.0
    ensures var order := Sort(Heavier(weights), paths);
            && multiset(order) == multiset(paths)
            && (forall p <- order :: p in weights && weights[p] > 0.0)
            && Positive(WeightsOf(order, weights)) && HeaviestFirst(WeightsOf(order, weights))
            && Queued(order, WeightsOf(order, weights))
  {
    var order := Sort(Heavier(weights), paths);
    HeavierOrders(weights);
    SortSorts(Heavier(weights), paths);
    SameMultiset(order, paths);
    hide Sort, WeightsOf, Heavier;
    WeightsOfAt(order, weights);
    forall k | 0 <= k < |order| ensures order[k] in weights && weights[order[k]] > 0.0 { assert order[k] in order; }
    SortedIsQueued(order, weights);
    QueuedIsHeaviestFirst(order, WeightsOf(order, weights));
  }

  // ----- shards as groups

  function ShardEntry(rest: seq<Node>, paths: seq<File>, index: nat): Entry {
    Entry(Shard(index), Group(SortText(paths), SortText(NodesOfAll(rest, paths))))
  }

  function ShardEntries(rest: seq<Node>, files: seq<seq<File>>): seq<Entry> {
    seq(|files|, i requires 0 <= i < |files| => ShardEntry(rest, files[i], i + 1))
  }

  lemma ShardEntriesAt(rest: seq<Node>, files: seq<seq<File>>)
    ensures |ShardEntries(rest, files)| == |files|
    ensures forall i :: 0 <= i < |files| ==> ShardEntries(rest, files)[i] == ShardEntry(rest, files[i], i + 1)
  {
    hide ShardEntry;
  }

  lemma {:induction false} NodesOfAllConcat(nodes: seq<Node>, a: seq<File>, b: seq<File>)
    ensures NodesOfAll(nodes, a + b) == NodesOfAll(nodes, a) + NodesOfAll(nodes, b)
  {
    if a == [] {
      assert a + b == b;
    } else {
      NodesOfAllConcat(nodes, a[1..], b);
      assert (a + b)[1..] == a[1..] + b;
    }
  }

  ghost predicate Known(paths: seq<File>, byFile: map<File, seq<Node>>, rest: seq<Node>) {
    forall p <- paths :: p in byFile && byFile[p] == NodesOf(rest, p)
  }

  method NodesOfPaths(paths: seq<File>, byFile: map<File, seq<Node>>, ghost rest: seq<Node>) returns (nodes: seq<Node>)
    requires Known(paths, byFile, rest)
    ensures nodes == NodesOfAll(rest, paths)
  {
    nodes := [];
    for k := 0 to |paths|
      invariant nodes == NodesOfAll(rest, paths[..k])
    {
      assert paths[..k + 1] == paths[..k] + [paths[k]];
      NodesOfAllConcat(rest, paths[..k], [paths[k]]);
      nodes := nodes + byFile[paths[k]];
    }
    assert paths[..|paths|] == paths;
  }

  lemma ShardEntryIs(rest: seq<Node>, paths: seq<File>, index: nat, nodes: seq<Node>)
    requires nodes == NodesOfAll(rest, paths)
    ensures ShardEntry(rest, paths, index) == Entry(Shard(index), Group(SortText(paths), SortText(nodes)))
  {
  }

  /** The groups of the shards, unless one of them has no file. */
  method GroupShards(files: seq<seq<File>>, byFile: map<File, seq<Node>>, ghost rest: seq<Node>)
    returns (groups: Option<seq<Entry>>)
    requires forall i :: 0 <= i < |files| ==> Known(files[i], byFile, rest)
    ensures groups.Some? <==> forall i :: 0 <= i < |files| ==> files[i] != []
    ensures groups.Some? ==> groups.value == ShardEntries(rest, files)
  {
    hide ShardEntry, Known, NodesOfAll, SortText;
    var entries: seq<Entry> := [];
    for i := 0 to |files|
      invariant forall j :: 0 <= j < i ==> files[j] != []
      invariant |entries| == i && forall j :: 0 <= j < i ==> entries[j] == ShardEntry(rest, files[j], j + 1)
    {
      if files[i] == [] { return None; }
      var nodes := NodesOfPaths(files[i], byFile, rest);
      ShardEntryIs(rest, files[i], i + 1, nodes);
      entries := entries + [Entry(Shard(i + 1), Group(SortText(files[i]), SortText(nodes)))];
    }
    ShardEntriesAt(rest, files);
    assert entries == ShardEntries(rest, files);
    groups := Some(entries);
  }

  // ----- coverage

  lemma {:induction false} NodesOfAllIn(nodes: seq<Node>, paths: seq<File>, n: Node)
    ensures n in NodesOfAll(nodes, paths) <==> n in nodes && FileOf(n) in paths
  {
    if paths != [] {
      NodesOfAllIn(nodes, paths[1..], n);
      WhereIn(m => FileOf(m) == paths[0], nodes, n);
    }
  }

  /** Distinct files together hold each node of any of them once. */
  lemma {:induction false} NodesOfAllOnce(nodes: seq<Node>, paths: seq<File>)
    requires Unique(paths)
    ensures multiset(NodesOfAll(nodes, paths)) == multiset(Where(n => FileOf(n) in paths, nodes))
  {
    hide FileOf;
    if paths == [] {
      WhereNone(n => FileOf(n) in paths, nodes);
    } else {
      NodesOfAllOnce(nodes, paths[1..]);
      WhereEither(n => FileOf(n) == paths[0], n => FileOf(n) in paths[1..], n => FileOf(n) in paths, nodes);
    }
  }

  function Times(s: seq<File>, x: File): nat {
    multiset(s)[x]
  }

  lemma PlacedStep(order: seq<File>, shards: seq<nat>, i: nat, x: File)
    requires |order| == |shards| > 0
    ensures var n := |order| - 1;
            Times(Placed(order, shards, i), x)
            == Times(Placed(order[..n], shards[..n], i), x) + if shards[n] == i && order[n] == x then 1 else 0
  {
  }

  /** The lists of the four shards are a permutation of the files placed. */
  lemma {:induction false} PlacedIsPermutation(order: seq<File>, shards: seq<nat>, x: File)
    requires |order| == |shards| && forall k :: 0 <= k < |shards| ==> shards[k] < SHARDS
    ensures Times(order, x) == Times(Placed(order, shards, 0), x) + Times(Placed(order, shards, 1), x)
                               + Times(Placed(order, shards, 2), x) + Times(Placed(order, shards, 3), x)
  {
    if order != [] {
      hide Placed;
      var n := |order| - 1;
      assert order == order[..n] + [order[n]];
      assert Times(order, x) == Times(order[..n], x) + if order[n] == x then 1 else 0;
      assert shards[n] < SHARDS;
      hide Times;
      PlacedIsPermutation(order[..n], shards[..n], x);
      PlacedStep(order, shards, 0, x);
      PlacedStep(order, shards, 1, x);
      PlacedStep(order, shards, 2, x);
      PlacedStep(order, shards, 3, x);
    }
  }

  lemma SerialNowhere(nodes: seq<Node>)
    ensures forall n :: !InSerial([], n)
  {
  }

  /** The serial groups select every node of a serial group once. */
  lemma {:induction false} SerialCover(serial: seq<SerialGroup>, nodes: seq<Node>)
    requires Separate(serial, nodes)
    ensures multiset(AllSelected(SerialEntries(serial, nodes))) == multiset(Where(n => InSerial(serial, n), nodes))
  {
    hide MatchesAny, InSerial, Separate;
    if serial == [] {
      SerialNowhere(nodes);
      WhereNone(n => InSerial(serial, n), nodes);
    } else {
      var k := |serial| - 1;
      var before, last := serial[..k], serial[k];
      SeparatePrefix(serial, nodes, k);
      SerialCover(before, nodes);
      SerialStep(serial, nodes, k);
      assert serial[..k + 1] == serial;
      WhereEither(n => InSerial(before, n), n => MatchesAny(n, last.selectors), n => InSerial(serial, n), nodes);
      assert SerialEntries(serial, nodes)[..k] == SerialEntries(before, nodes);
    }
  }

  /** Every node is either selected by a serial group, once, or remains. */
  lemma SerialAndRemaining(serial: seq<SerialGroup>, nodes: seq<Node>)
    requires Separate(serial, nodes)
    ensures multiset(nodes) == multiset(AllSelected(SerialEntries(serial, nodes))) + multiset(Remaining(serial, nodes))
  {
    hide InSerial, Separate, AllSelected;
    SerialCover(serial, nodes);
    WhereEither(n => InSerial(serial, n), n => !InSerial(serial, n), n => true, nodes);
    WhereAll(n => true, nodes);
  }

  lemma OutsideIsRemaining(serial: seq<SerialGroup>, nodes: seq<Node>)
    ensures Outside(nodes, SerialNodes(serial, nodes)) == Remaining(serial, nodes)
  {
    hide InSerial;
    WhereSame(n => n !in SerialNodes(serial, nodes), n => !InSerial(serial, n), nodes);
  }

  // ----- the shards deal the remaining files out, each file to one shard

  function Flat(files: seq<seq<File>>): seq<File> {
    if files == [] then [] else Flat(files[..|files| - 1]) + files[|files| - 1]
  }

  ghost predicate Dealt(files: seq<seq<File>>, paths: set<File>) {
    |files| == SHARDS && Unique(Flat(files)) && (set p | p in Flat(files)) == paths
  }

  lemma {:induction false} InFlat(files: seq<seq<File>>, p: File)
    ensures p in Flat(files) <==> exists i :: 0 <= i < |files| && p in files[i]
  {
    if files != [] {
      var n := |files| - 1;
      InFlat(files[..n], p);
      if p in Flat(files[..n]) {
        var i :| 0 <= i < n && p in files[..n][i];
        assert p in files[i];
      }
      if i :| 0 <= i < |files| && p in files[i] {
        if i < n { assert p in files[..n][i]; }
      }
    }
  }

  lemma UniqueParts(a: seq<File>, b: seq<File>)
    requires Unique(a + b)
    ensures Unique(a) && Unique(b) && forall p :: !(p in a && p in b)
  {
    var c := a + b;
    forall i, j | 0 <= i < j < |a| ensures a[i] != a[j] { assert c[i] != c[j]; }
    forall i, j | 0 <= i < j < |b| ensures b[i] != b[j] { assert c[|a| + i] != c[|a| + j]; }
    forall p | p in a ensures p !in b {
      var i :| 0 <= i < |a| && a[i] == p;
      forall j | 0 <= j < |b| ensures b[j] != p { assert c[i] != c[|a| + j]; }
    }
  }

  lemma {:induction false} FlatUnique(files: seq<seq<File>>, i: nat)
    requires i < |files| && Unique(Flat(files))
    ensures Unique(files[i])
    decreases |files|
  {
    var n := |files| - 1;
    UniqueParts(Flat(files[..n]), files[n]);
    if i < n {
      FlatUnique(files[..n], i);
      assert files[..n][i] == files[i];
    }
  }

  lemma {:induction false} FlatApart(files: seq<seq<File>>, i: nat, j: nat, p: File)
    requires i < j < |files| && Unique(Flat(files))
    ensures !(p in files[i] && p in files[j])
    decreases |files|
  {
    var n := |files| - 1;
    UniqueParts(Flat(files[..n]), files[n]);
    assert files[..n][i] == files[i];
    if j < n {
      FlatApart(files[..n], i, j, p);
      assert files[..n][j] == files[j];
    } else {
      InFlat(files[..n], p);
      if p in files[i] { assert p in files[..n][i]; }
    }
  }

  /** What a shard's list says about its group. */
  lemma ShardEntryValid(serial: seq<SerialGroup>, rest: seq<Node>, paths: seq<File>, index: nat)
    requires paths != [] && Unique(paths) && forall p <- paths :: p in Files(rest)
    ensures ValidGroup(serial, ShardEntry(rest, paths, index))
    ensures Files(ShardEntry(rest, paths, index).group.nodes) == set p | p in paths
  {
    hide FileOf, NodesOfAll;
    var nodes := NodesOfAll(rest, paths);
    forall n ensures n in nodes <==> n in rest && FileOf(n) in paths { NodesOfAllIn(rest, paths, n); }
    forall p <- paths ensures p in Files(nodes) {
      var n :| n in rest && FileOf(n) == p;
      assert n in nodes;
    }
    assert paths[0] in Files(nodes);
  }

  lemma {:induction false} AllSelectedConcat(a: seq<Entry>, b: seq<Entry>)
    ensures AllSelected(a + b) == AllSelected(a) + AllSelected(b)
  {
    if b == [] {
      assert a + b == a;
    } else {
      var n := |b| - 1;
      AllSelectedConcat(a, b[..n]);
      assert (a + b)[..|a + b| - 1] == a + b[..n];
    }
  }

  lemma NoFilesNoNodes(rest: seq<Node>)
    ensures NodesOfAll(rest, []) == []
  {
  }

  lemma {:induction false} ShardsSelect(rest: seq<Node>, files: seq<seq<File>>)
    ensures multiset(AllSelected(ShardEntries(rest, files))) == multiset(NodesOfAll(rest, Flat(files)))
  {
    hide NodesOfAll;
    if files == [] {
      NoFilesNoNodes(rest);
    } else {
      var n := |files| - 1;
      ShardsSelect(rest, files[..n]);
      ShardEntriesAt(rest, files);
      ShardEntriesAt(rest, files[..n]);
      NodesOfAllConcat(rest, Flat(files[..n]), files[n]);
      assert ShardEntries(rest, files)[..n] == ShardEntries(rest, files[..n]);
    }
  }

  /** Shards that deal out the files of `rest` select each node of `rest` once. */
  lemma ShardsCover(rest: seq<Node>, files: seq<seq<File>>)
    requires Dealt(files, Files(rest))
    ensures multiset(AllSelected(ShardEntries(rest, files))) == multiset(rest)
  {
    hide FileOf, Flat, NodesOfAll, AllSelected;
    var all := Flat(files);
    ShardsSelect(rest, files);
    NodesOfAllOnce(rest, all);
    forall n <- rest ensures FileOf(n) in all {
      assert FileOf(n) in Files(rest);
      assert FileOf(n) in set p | p in all;
    }
    WhereAll(n => FileOf(n) in all, rest);
  }

  lemma FlatFour(files: seq<seq<File>>)
    requires |files| == SHARDS
    ensures Flat(files) == files[0] + files[1] + files[2] + files[3]
  {
    var three, two, one := files[..3], files[..2], files[..1];
    assert three[..2] == two && two[..1] == one && one[..0] == [];
    assert Flat(one) == files[0];
    assert Flat(two) == files[0] + files[1];
    assert Flat(three) == files[0] + files[1] + files[2];
  }

  /** The greedy lists deal out the files placed. */
  lemma AllocationDeals(order: seq<File>, weights: seq<real>, shards: seq<nat>, loads: seq<real>, files: seq<seq<File>>)
    requires Allocation(order, weights, shards, loads, files) && Unique(order)
    ensures Dealt(files, set p | p in order)
  {
    hide Placed, Greedy;
    GreedyAssigns(weights, shards);
    assert Flat(files) == files[0] + files[1] + files[2] + files[3] by { FlatFour(files); }
    forall x ensures multiset(order)[x] == multiset(Flat(files))[x] { PlacedIsPermutation(order, shards, x); }
    assert multiset(order) == multiset(Flat(files));
    SameMultiset(order, Flat(files));
  }

  // ----- the plan

  function PlanOf(serial: seq<SerialGroup>, nodes: seq<Node>, files: seq<seq<File>>): Plan {
    Plan(1, SortText(nodes), SerialEntries(serial, nodes) + ShardEntries(Remaining(serial, nodes), files))
  }

  ghost predicate NamedApart(serial: seq<SerialGroup>) {
    forall i, j :: 0 <= i < j < |serial| ==> serial[i].name != serial[j].name
  }

  /** The groups of a plan: one per serial group, then one per shard. */
  ghost predicate Laid(serial: seq<SerialGroup>, nodes: seq<Node>, rest: seq<Node>, files: seq<seq<File>>,
                       groups: seq<Entry>)
  {
    && |files| == SHARDS && |groups| == |serial| + SHARDS
    && (forall i :: 0 <= i < |serial| ==> groups[i] == SerialEntry(nodes, serial[i]))
    && forall i :: |serial| <= i < |groups| ==> groups[i] == ShardEntry(rest, files[i - |serial|], i - |serial| + 1)
  }

  lemma PlanLaid(serial: seq<SerialGroup>, nodes: seq<Node>, files: seq<seq<File>>)
    requires |files| == SHARDS
    ensures Laid(serial, nodes, Remaining(serial, nodes), files, PlanOf(serial, nodes, files).groups)
  {
    hide Remaining, SortText, SerialEntry, ShardEntry;
    ShardEntriesAt(Remaining(serial, nodes), files);
  }

  lemma GroupIsNamed(serial: seq<SerialGroup>, nodes: seq<Node>, rest: seq<Node>, files: seq<seq<File>>,
                     groups: seq<Entry>, i: nat)
    requires Laid(serial, nodes, rest, files, groups) && i < |groups|
    ensures groups[i].name == if i < |serial| then Serial(serial[i].name) else Shard(i - |serial| + 1)
  {
  }

  function NameAt(serial: seq<SerialGroup>, i: nat): GroupName {
    if i < |serial| then Serial(serial[i].name) else Shard(i - |serial| + 1)
  }

  lemma NamesExpected(serial: seq<SerialGroup>, names: seq<GroupName>)
    requires |names| == |serial| + SHARDS && forall i :: 0 <= i < |names| ==> names[i] == NameAt(serial, i)
    ensures (set n | n in names) == ExpectedNames(serial)
  {
    var n := |serial|;
    assert names[n] == Shard(1) && names[n + 1] == Shard(2) && names[n + 2] == Shard(3) && names[n + 3] == Shard(4);
    forall name ensures name in names <==> name in ExpectedNames(serial) {
      if name in names {
        var i :| 0 <= i < |names| && names[i] == name;
        assert i < n || i == n || i == n + 1 || i == n + 2 || i == n + 3;
      }
      if i :| 0 <= i < |serial| && name == Serial(serial[i].name) { assert names[i] == name; }
    }
  }

  lemma NamesUnique(serial: seq<SerialGroup>, names: seq<GroupName>)
    requires NamedApart(serial) && forall i :: 0 <= i < |names| ==> names[i] == NameAt(serial, i)
    ensures Unique(names)
  {
  }

  lemma PlanNames(serial: seq<SerialGroup>, nodes: seq<Node>, rest: seq<Node>, files: seq<seq<File>>,
                  groups: seq<Entry>)
    requires Laid(serial, nodes, rest, files, groups) && NamedApart(serial)
    ensures (set n | n in Names(groups)) == ExpectedNames(serial)
    ensures Keyed(serial, groups)
  {
    var names := Names(groups);
    assert |names| == |serial| + SHARDS;
    forall i | 0 <= i < |names| ensures names[i] == NameAt(serial, i) {
      GroupIsNamed(serial, nodes, rest, files, groups, i);
    }
    hide Laid, Names, ExpectedNames, NameAt, Unique;
    NamesExpected(serial, names);
    NamesUnique(serial, names);
  }

  lemma ShardGroup(serial: seq<SerialGroup>, nodes: seq<Node>, rest: seq<Node>, files: seq<seq<File>>,
                   groups: seq<Entry>, k: nat)
    requires Laid(serial, nodes, rest, files, groups) && Dealt(files, Files(rest)) && k < SHARDS && files[k] != []
    ensures ValidGroup(serial, groups[|serial| + k])
    ensures Files(groups[|serial| + k].group.nodes) == set p | p in files[k]
  {
    hide FileOf, Flat, ShardEntry, SerialEntry, ValidGroup;
    FlatUnique(files, k);
    forall p <- files[k] ensures p in Files(rest) {
      InFlat(files, p);
      assert p in set q | q in Flat(files);
    }
    ShardEntryValid(serial, rest, files[k], k + 1);
  }

  lemma SerialEntryValid(serial: seq<SerialGroup>, nodes: seq<Node>, i: nat)
    requires i < |serial| && Live(nodes, serial[i])
    ensures ValidGroup(serial, SerialEntry(nodes, serial[i]))
  {
    var selected := Selected(nodes, serial[i].selectors);
    SelectedIn(nodes, serial[i].selectors);
    assert MatchesAny(selected[0], serial[i].selectors);
  }

  lemma PlanGroups(serial: seq<SerialGroup>, nodes: seq<Node>, rest: seq<Node>, files: seq<seq<File>>,
                   groups: seq<Entry>)
    requires Laid(serial, nodes, rest, files, groups) && Dealt(files, Files(rest))
    requires forall i :: 0 <= i < |serial| ==> Live(nodes, serial[i])
    requires forall i :: 0 <= i < SHARDS ==> files[i] != []
    ensures FilesApart(groups)
    ensures forall i :: 0 <= i < |groups| ==> ValidGroup(serial, groups[i])
  {
    hide Files, ValidGroup, Live, SerialEntry, ShardEntry, Flat;
    var n := |serial|;
    forall i | 0 <= i < |groups| ensures ValidGroup(serial, groups[i]) {
      if i < n { SerialEntryValid(serial, nodes, i); } else { ShardGroup(serial, nodes, rest, files, groups, i - n); }
    }
    forall i, j | 0 <= i < j < |groups| && groups[i].name.Shard? && groups[j].name.Shard?
      ensures Files(groups[i].group.nodes) !! Files(groups[j].group.nodes)
    {
      GroupIsNamed(serial, nodes, rest, files, groups, i);
      ShardGroup(serial, nodes, rest, files, groups, i - n);
      ShardGroup(serial, nodes, rest, files, groups, j - n);
      var a, b := files[i - n], files[j - n];
      forall p | p in a ensures p !in b { FlatApart(files, i - n, j - n, p); }
    }
  }

  /** Whatever the durations, a plan that deals out the remaining files passes the validator. */
  lemma PlanIsValid(serial: seq<SerialGroup>, nodes: seq<Node>, files: seq<seq<File>>)
    requires NamedApart(serial) && nodes != [] && Unique(nodes)
    requires SerialFit(serial, nodes) && Dealt(files, Files(Remaining(serial, nodes)))
    requires forall i :: 0 <= i < SHARDS ==> files[i] != []
    ensures ValidPlan(serial, PlanOf(serial, nodes, files)) && Keyed(serial, PlanOf(serial, nodes, files).groups)
  {
    hide FileOf, Flat, InSerial, ValidGroup, FilesApart, AllSelected, ExpectedNames, Live, Separate, Laid, Names,
      Remaining;
    var rest, groups := Remaining(serial, nodes), PlanOf(serial, nodes, files).groups;
    PlanLaid(serial, nodes, files);
    PlanNames(serial, nodes, rest, files, groups);
    PlanGroups(serial, nodes, rest, files, groups);
    SerialAndRemaining(serial, nodes);
    ShardsCover(rest, files);
    AllSelectedConcat(SerialEntries(serial, nodes), ShardEntries(rest, files));
  }

  /** What the partition asks of its inputs. */
  ghost predicate Partitionable(serial: seq<SerialGroup>, nodes: seq<Node>, history: seq<Cost>) {
    && nodes != [] && Unique(nodes)
    && SerialFit(serial, nodes)
    && (exists row <- history :: TimedRow(row))
    && (forall p <- Files(Remaining(serial, nodes)) :: Counted(history, p))
    && |Files(Remaining(serial, nodes))| >= SHARDS
  }

  /** No assignment of the same files to four shards has a largest load below 4/5 of this one's. */
  ghost predicate Balanced(weights: seq<real>, shards: seq<nat>) {
    && Assignment(weights, shards)
    && forall other :: Assignment(weights, other) ==> 4.0 * MaxLoad(weights, shards) <= 5.0 * MaxLoad(weights, other)
  }

  /** The files outside the serial groups as they were placed, their weights, their shards, and each shard's list. */
  datatype Allotment = Allotment(order: seq<File>, weights: seq<real>, shards: seq<nat>, files: seq<seq<File>>)

  /** An allotment of these files: heaviest first, each to the least loaded shard, and as even as that makes it. */
  ghost predicate Allotted(a: Allotment, paths: set<File>) {
    && |a.order| == |a.weights| == |a.shards| && |a.files| == SHARDS
    && (set p | p in a.order) == paths && Dealt(a.files, paths)
    && (forall i :: 0 <= i < SHARDS ==> a.files[i] == Placed(a.order, a.shards, i) && a.files[i] != [])
    && Queued(a.order, a.weights) && Greedy(a.weights, a.shards) && Balanced(a.weights, a.shards)
  }

  /** The weights of an allotment are the files' estimated durations, by their own rows or the median of all rows. */
  ghost predicate Timed(a: Allotment, history: seq<Cost>, rest: seq<Node>) {
    && |a.order| == |a.weights|
    && exists median :: Middle(history, median) && forall k :: 0 <= k < |a.order| ==>
         Weighs(history, median, a.order[k], |NodesOf(rest, a.order[k])|, a.weights[k])
  }

  lemma AllocationIsBalanced(order: seq<File>, weights: seq<real>, shards: seq<nat>, loads: seq<real>,
                             files: seq<seq<File>>)
    requires Allocation(order, weights, shards, loads, files) && Positive(weights) && HeaviestFirst(weights)
    ensures |order| == |weights| == |shards| && |files| == SHARDS
    ensures Balanced(weights, shards) && Greedy(weights, shards)
    ensures forall i :: 0 <= i < SHARDS ==> files[i] == Placed(order, shards, i)
  {
    hide Placed, Load, Positive, HeaviestFirst, MaxLoad;
    GreedyAssigns(weights, shards);
    forall other | Assignment(weights, other) ensures 4.0 * MaxLoad(weights, shards) <= 5.0 * MaxLoad(weights, other) {
      WithinFiveQuarters(weights, shards, other);
    }
  }

  /** Heaviest first, each file to the least loaded shard. */
  method Deal(paths: seq<File>, weights: map<File, real>) returns (files: seq<seq<File>>, ghost a: Allotment)
    requires Unique(paths) && forall p <- paths :: p in weights && weights[p] > 0.0
    ensures a.files == files && |files| == SHARDS
    ensures (forall i :: 0 <= i < SHARDS ==> files[i] != []) <==> |paths| >= SHARDS
    ensures |paths| >= SHARDS ==> Allotted(a, set p | p in paths)
    ensures |a.order| == |a.weights| && forall k :: 0 <= k < |a.order| ==>
              a.order[k] in paths && a.order[k] in weights && a.weights[k] == weights[a.order[k]]
    ensures Dealt(files, set p | p in paths)
  {
    hide Heavier, WeightsOf, Allocation, Balanced, HeaviestFirst, Positive, Queued, Greedy, Dealt, Placed;
    HeaviestFirstOrder(paths, weights);
    var order := Sort(Heavier(weights), paths);
    SameMultiset(order, paths);
    assert (set p | p in order) == set p | p in paths;
    var loads; ghost var shards;
    loads, files, shards := Allocate(order, weights);
    a := Allotment(order, WeightsOf(order, weights), shards, files);
    WeightsOfAt(order, weights);
    forall k | 0 <= k < |order| ensures order[k] in paths { assert order[k] in order; }
    AllocationDeals(order, a.weights, shards, loads, files);
    AllocationIsBalanced(order, a.weights, shards, loads, files);
  }

  lemma DealtKnown(files: seq<seq<File>>, i: nat, paths: seq<File>, byFile: map<File, seq<Node>>, rest: seq<Node>)
    requires Filed(rest, paths, byFile) && i < |files| && Dealt(files, set p | p in paths)
    ensures Known(files[i], byFile, rest)
  {
    hide Files, NodesOf, Flat;
    forall p <- files[i] ensures p in byFile {
      InFlat(files, p);
      assert p in set q | q in Flat(files);
    }
  }

  /** The groups of the shards, from the files outside the serial groups. */
  method Distribute(paths: seq<File>, byFile: map<File, seq<Node>>, history: seq<Cost>, ghost rest: seq<Node>)
    returns (r: Result<seq<Entry>, PlanError>, ghost a: Allotment)
    requires Filed(rest, paths, byFile)
    ensures r.Ok?
            <==> && (exists row <- history :: TimedRow(row))
                 && (forall p <- Files(rest) :: Counted(history, p)) && |Files(rest)| >= SHARDS
    ensures r.Ok? ==> Allotted(a, Files(rest)) && Timed(a, history, rest) && r.value == ShardEntries(rest, a.files)
    ensures r.Err? ==> r.error in {NoCosts, NoTests, EmptyShard}
  {
    hide Files, NodesOf, PerTest, Counted, Median, Middle, Weighs, Dealt, Allotted, Known, TimedRow;
    a := Allotment([], [], [], []);
    SomeTimedRow(history);
    SetOfUnique(paths);
    var perTest := PerTest(history);
    if perTest == [] { return Err(NoCosts), a; }
    var weights := Weigh(paths, byFile, history, Median(perTest));
    if weights.None? { return Err(NoTests), a; }
    MedianIsMiddle(history);
    forall p <- paths ensures p in weights.value && weights.value[p] > 0.0 {
      WeightIsOne(history, Median(perTest), p, |byFile[p]|, weights.value[p], weights.value[p]);
    }
    var files;
    files, a := Deal(paths, weights.value);
    forall i | 0 <= i < |files| ensures Known(files[i], byFile, rest) { DealtKnown(files, i, paths, byFile, rest); }
    var groups := GroupShards(files, byFile, rest);
    r := if groups.Some? then Ok(groups.value) else Err(EmptyShard);
  }

  /** The plan of a partition from this history, with the allotment that it follows. */
  ghost predicate Made(serial: seq<SerialGroup>, nodes: seq<Node>, history: seq<Cost>, plan: Plan, a: Allotment) {
    && Partitionable(serial, nodes, history)
    && ValidPlan(serial, plan)
    && Allotted(a, Files(Remaining(serial, nodes))) && Timed(a, history, Remaining(serial, nodes))
    && plan == PlanOf(serial, nodes, a.files)
  }

  /** The plan, or the reason there is none. */
  method Partition(serial: seq<SerialGroup>, nodes: seq<Node>, history: seq<Cost>)
    returns (r: Result<Plan, PlanError>, ghost a: Allotment)
    requires NamedApart(serial)
    ensures r.Ok? <==> Partitionable(serial, nodes, history)
    ensures r == Err(NotUnique) <==> nodes == [] || !Unique(nodes)
    ensures r != Err(Invalid)
    ensures r.Ok? ==> Made(serial, nodes, history, r.value, a)
  {
    hide SerialFit, Remaining, Files, ValidPlan, TimedRow, Counted, Outside, SerialNodes, Keyed, NamedApart, Balanced,
      Dealt, Placed, Timed;
    a := Allotment([], [], [], []);
    if nodes == [] || !Unique(nodes) { return Err(NotUnique), a; }
    var grouped, serialNodes := GroupSerial(serial, nodes);
    if grouped.Err? { return Err(grouped.error), a; }
    OutsideIsRemaining(serial, nodes);
    var paths, byFile := ByFile(nodes, serialNodes);
    var shardGroups;
    shardGroups, a := Distribute(paths, byFile, history, Remaining(serial, nodes));
    if shardGroups.Err? { return Err(shardGroups.error), a; }
    var plan := Plan(1, SortText(nodes), grouped.value + shardGroups.value);
    PlanIsValid(serial, nodes, a.files);
    var valid := ValidatePlan(serial, plan);
    r := if valid then Ok(plan) else Err(Invalid);
  }

  lemma SerialGroupsNamedApart()
    ensures NamedApart(SERIAL_GROUPS)
  {
    assert SERIAL_GROUPS[0].name == "workspace" && SERIAL_GROUPS[1].name == "native"
           && SERIAL_GROUPS[2].name == "task-scheduler";
    assert SERIAL_GROUPS[3].name == "owner-pipe" && SERIAL_GROUPS[4].name == "terminal"
           && SERIAL_GROUPS[5].name == "reconnect";
    assert SERIAL_GROUPS[6].name == "browser-cleanup" && SERIAL_GROUPS[7].name == "connection-recovery";
    assert SERIAL_GROUPS[0].name[0] == 'w' && SERIAL_GROUPS[1].name[0] == 'n';
  }

  /** The serial group whose selectors have these as their twelfth and thirteenth characters. */
  function MarkedBy(c: char, d: char): nat {
    if c == 'w' then 0
    else if c == 's' && d == 't' then 1
    else if c == 'a' then 2
    else if c == 'o' then 3
    else if c == 't' || c == 'f' then 4
    else if c == 's' || c == 'd' then 5
    else if c == 'b' then 6
    else 7
  }

  predicate Marks(selector: string, i: nat) {
    |selector| >= 13 && MarkedBy(selector[11], selector[12]) == i
  }

  lemma MarksAhead(n: Node, selector: string, i: nat)
    requires Matches(n, selector) && Marks(selector, i)
    ensures Marks(n, i)
  {
    if n != selector { assert n[11] == (selector + "::")[11] && n[12] == (selector + "::")[12]; }
  }

  lemma SelectorMarks(i: nat, k: nat)
    requires i < |SERIAL_GROUPS| && k < |SERIAL_GROUPS[i].selectors|
    ensures Marks(SERIAL_GROUPS[i].selectors[k], i)
  {
    var s := SERIAL_GROUPS[i].selectors;
    if i == 0 { assert s[0][11] == 'w'; }
    else if i == 1 { assert s[0][11] == 's' && s[0][12] == 't'; }
    else if i == 2 { assert s[0][11] == 'a'; }
    else if i == 3 { assert s[0][11] == 'o'; }
    else if i == 4 { assert s[0][11] == s[1][11] == s[2][11] == 't' && s[3][11] == 'f'; }
    else if i == 5 { assert s[0][11] == 's' && s[0][12] == 'h' && s[1][11] == 'd'; }
    else if i == 6 { assert s[0][11] == s[1][11] == s[2][11] == 'b'; }
    else { assert i == 7 && s[0][11] == 'c' && s[1][11] == 'e'; }
  }

  lemma MatchMarks(n: Node, i: nat)
    requires i < |SERIAL_GROUPS| && MatchesAny(n, SERIAL_GROUPS[i].selectors)
    ensures Marks(n, i)
  {
    var k :| 0 <= k < |SERIAL_GROUPS[i].selectors| && Matches(n, SERIAL_GROUPS[i].selectors[k]);
    SelectorMarks(i, k);
    MarksAhead(n, SERIAL_GROUPS[i].selectors[k], i);
  }

  /** No test belongs to two of the program's serial groups. */
  lemma SerialGroupsSelectApart(nodes: seq<Node>)
    ensures Separate(SERIAL_GROUPS, nodes)
  {
    forall i, j, n | 0 <= i < j < |SERIAL_GROUPS| && n in nodes
      ensures !(MatchesAny(n, SERIAL_GROUPS[i].selectors) && MatchesAny(n, SERIAL_GROUPS[j].selectors))
    {
      hide MatchesAny;
      if MatchesAny(n, SERIAL_GROUPS[i].selectors) { MatchMarks(n, i); }
      if MatchesAny(n, SERIAL_GROUPS[j].selectors) { MatchMarks(n, j); }
    }
  }

  /**
   The partition with the program's own serial groups, which never select the same test: it fails
   only for doubled or missing tests, a serial selector without a test, or durations or files that
   do not do.
   */
  method PartitionTests(nodes: seq<Node>, history: seq<Cost>) returns (r: Result<Plan, PlanError>, ghost a: Allotment)
    ensures r.Ok? <==>
              && nodes != [] && Unique(nodes)
              && (forall i :: 0 <= i < |SERIAL_GROUPS| ==> Live(nodes, SERIAL_GROUPS[i]))
              && (exists row <- history :: TimedRow(row))
              && (forall p <- Files(Remaining(SERIAL_GROUPS, nodes)) :: Counted(history, p))
              && |Files(Remaining(SERIAL_GROUPS, nodes))| >= SHARDS
    ensures r.Ok? ==> Made(SERIAL_GROUPS, nodes, history, r.value, a)
  {
    SerialGroupsNamedApart();
    SerialGroupsSelectApart(nodes);
    hide Separate, Live, Made, NamedApart, TimedRow, Counted, Files, Remaining;
    r, a := Partition(SERIAL_GROUPS, nodes, history);
  }

  // ----- what durations can change

  /** The tests of one shard. */
  function ShardNodes(serial: seq<SerialGroup>, plan: Plan, i: nat): seq<Node>
    requires |serial| + i < |plan.groups|
  {
    plan.groups[|serial| + i].group.nodes
  }

  lemma ShardHolds(serial: seq<SerialGroup>, nodes: seq<Node>, files: seq<seq<File>>, i: nat, n: Node)
    requires i < |files|
    ensures |PlanOf(serial, nodes, files).groups| == |serial| + |files|
    ensures n in ShardNodes(serial, PlanOf(serial, nodes, files), i)
            <==> n in Remaining(serial, nodes) && FileOf(n) in files[i]
  {
    hide Remaining, FileOf, NodesOfAll;
    ShardEntriesAt(Remaining(serial, nodes), files);
    NodesOfAllIn(Remaining(serial, nodes), files[i], n);
  }

  /** Some shard has the test. */
  predicate Sharded(serial: seq<SerialGroup>, plan: Plan, n: Node)
    requires |plan.groups| == |serial| + SHARDS
  {
    exists i :: 0 <= i < SHARDS && n in ShardNodes(serial, plan, i)
  }

  /** Tests of one file, outside the serial groups, are in the same shard. */
  ghost predicate FilesTogether(serial: seq<SerialGroup>, nodes: seq<Node>, plan: Plan)
    requires |plan.groups| == |serial| + SHARDS
  {
    forall i, n, m ::
      0 <= i < SHARDS && n in Remaining(serial, nodes) && m in Remaining(serial, nodes) && FileOf(n) == FileOf(m) ==>
      (n in ShardNodes(serial, plan, i) <==> m in ShardNodes(serial, plan, i))
  }

  /** A test is in some shard exactly when no serial group has it. */
  lemma ShardedIsRemaining(serial: seq<SerialGroup>, nodes: seq<Node>, history: seq<Cost>, plan: Plan, a: Allotment,
                           n: Node)
    requires Made(serial, nodes, history, plan, a)
    ensures |plan.groups| == |serial| + SHARDS
    ensures Sharded(serial, plan, n) <==> n in Remaining(serial, nodes)
  {
    hide Remaining, FileOf, PlanOf, ValidPlan, Partitionable, Timed, Balanced, Flat;
    ShardHolds(serial, nodes, a.files, 0, n);
    forall i | 0 <= i < SHARDS
      ensures n in ShardNodes(serial, plan, i) <==> n in Remaining(serial, nodes) && FileOf(n) in a.files[i]
    {
      ShardHolds(serial, nodes, a.files, i, n);
    }
    if n in Remaining(serial, nodes) {
      assert FileOf(n) in Files(Remaining(serial, nodes));
      assert FileOf(n) in set p | p in Flat(a.files);
      InFlat(a.files, FileOf(n));
    }
  }

  lemma FilesStayTogether(serial: seq<SerialGroup>, nodes: seq<Node>, files: seq<seq<File>>)
    requires |files| == SHARDS
    ensures |PlanOf(serial, nodes, files).groups| == |serial| + SHARDS
            && FilesTogether(serial, nodes, PlanOf(serial, nodes, files))
  {
    hide Remaining, FileOf, PlanOf, ShardNodes;
    var rest, plan := Remaining(serial, nodes), PlanOf(serial, nodes, files);
    ShardHolds(serial, nodes, files, 0, "");
    forall i, n, m | 0 <= i < SHARDS && n in rest && m in rest && FileOf(n) == FileOf(m)
      ensures n in ShardNodes(serial, plan, i) <==> m in ShardNodes(serial, plan, i)
    {
      ShardHolds(serial, nodes, files, i, n);
      ShardHolds(serial, nodes, files, i, m);
    }
  }

  lemma SerialPart(serial: seq<SerialGroup>, nodes: seq<Node>, files: seq<seq<File>>)
    ensures |serial| <= |PlanOf(serial, nodes, files).groups|
    ensures PlanOf(serial, nodes, files).groups[..|serial|] == SerialEntries(serial, nodes)
  {
    hide Remaining;
  }

  /**
   Partitions of one collection from two histories have the same serial groups and the same files to
   deal, put the same tests in shards, and keep the tests of a file together: all that durations
   decide is the shard of each file.
   */
  lemma CostsNeverChangeCoverage(serial: seq<SerialGroup>, nodes: seq<Node>, history: seq<Cost>, plan: Plan,
                                 a: Allotment, history': seq<Cost>, plan': Plan, a': Allotment)
    requires Made(serial, nodes, history, plan, a) && Made(serial, nodes, history', plan', a')
    ensures plan.allNodes == plan'.allNodes && |plan.groups| == |plan'.groups| == |serial| + SHARDS
    ensures plan.groups[..|serial|] == plan'.groups[..|serial|]
    ensures (set p | p in a.order) == (set p | p in a'.order)
    ensures forall n :: Sharded(serial, plan, n) <==> Sharded(serial, plan', n)
    ensures FilesTogether(serial, nodes, plan) && FilesTogether(serial, nodes, plan')
  {
    hide Remaining, ValidPlan, Partitionable, Timed, Balanced, Files, Dealt, Placed, Sharded, FilesTogether;
    SerialPart(serial, nodes, a.files);
    SerialPart(serial, nodes, a'.files);
    FilesStayTogether(serial, nodes, a.files);
    FilesStayTogether(serial, nodes, a'.files);
    hide PlanOf;
    forall n ensures Sharded(serial, plan, n) <==> Sharded(serial, plan', n) {
      ShardedIsRemaining(serial, nodes, history, plan, a, n);
      ShardedIsRemaining(serial, nodes, history', plan', a', n);
    }
  }
}
