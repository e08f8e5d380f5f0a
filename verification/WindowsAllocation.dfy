/**
 Durations and the greedy allocation of scripts/windows_test_shards.py: files heaviest first, each
 to the least loaded of four shards.
 */
module WindowsAllocation {
  import opened Outcomes
  import opened Collections
  import opened ShardBound
  import opened WindowsShards

  const LEAST_SECONDS := 0.001

  // ----- durations

  function PerTest(history: seq<Cost>): seq<real> {
    if history == [] then []
    else
      (if history[0].tests > 0 && history[0].seconds > 0.0 then [history[0].seconds / history[0].tests as real] else [])
      + PerTest(history[1..])
  }

  lemma InsertLength(before: (real, real) -> bool, x: real, s: seq<real>)
    ensures |Insert(before, x, s)| == |s| + 1
  {
    if s != [] { InsertLength(before, x, s[1..]); }
  }

  lemma SortLength(before: (real, real) -> bool, values: seq<real>)
    ensures |Sort(before, values)| == |values|
  {
    if values != [] {
      SortLength(before, values[1..]);
      InsertLength(before, values[0], Sort(before, values[1..]));
    }
  }

  /** The middle of the sorted values, or the mean of the middle two. */
  function Median(values: seq<real>): real
    requires values != []
  {
    var s := Sort((a: real, b: real) => a <= b, values);
    SortLength((a: real, b: real) => a <= b, values);
    if |s| % 2 == 1 then s[|s| / 2] else (s[|s| / 2 - 1] + s[|s| / 2]) / 2.0
  }

  function Lookup(history: seq<Cost>, path: File): Option<Cost> {
    if history == [] then None
    else if history[0].path == path then Some(history[0])
    else Lookup(history[1..], path)
  }

  /** The estimated duration of a file, or None where the recorded row counts no tests. */
  function Weight(history: seq<Cost>, fallback: real, path: File, tests: nat): Option<real> {
    var row := Lookup(history, path);
    if row.Some? && row.value.tests == 0 then None
    else
      var estimate := if row.Some? then row.value.seconds / row.value.tests as real else fallback;
      Some(Larger(LEAST_SECONDS, estimate * tests as real))
  }

  function WeightAt(weights: map<File, real>, path: File): real {
    if path in weights then weights[path] else 0.0
  }

  /** Heavier files first, files of equal weight by name. */
  function Heavier(weights: map<File, real>): (File, File) -> bool {
    (x, y) => WeightAt(weights, x) > WeightAt(weights, y)
              || (WeightAt(weights, x) == WeightAt(weights, y) && TextBefore(x, y))
  }

  lemma HeavierOrders(weights: map<File, real>)
    ensures TotalPreorder(Heavier(weights))
  {
    forall a, b ensures Heavier(weights)(a, b) || Heavier(weights)(b, a) { TextBeforeTotal(a, b); }
    forall a, b, c | Heavier(weights)(a, b) && Heavier(weights)(b, c) ensures Heavier(weights)(a, c) {
      if TextBefore(a, b) && TextBefore(b, c) { TextBeforeTransitive(a, b, c); }
    }
  }

  function WeightsOf(order: seq<File>, weights: map<File, real>): seq<real> {
    seq(|order|, k requires 0 <= k < |order| => WeightAt(weights, order[k]))
  }

  // ----- the greedy allocation

  /** The files of one shard, in the order they were placed. */
  function Placed(order: seq<File>, shards: seq<nat>, i: nat): seq<File>
    requires |order| == |shards|
  {
    if order == [] then []
    else
      var n := |order| - 1;
      Placed(order[..n], shards[..n], i) + if shards[n] == i then [order[n]] else []
  }

  predicate Precedes(loads: seq<real>, files: seq<seq<File>>, i: nat, j: nat)
    requires i < |loads| && j < |loads| && |loads| == |files|
  {
    loads[i] < loads[j] || (loads[i] == loads[j] && |files[i]| < |files[j]|)
  }

  /** The first shard of least load and, among those, of fewest files. */
  function LeastShard(loads: seq<real>, files: seq<seq<File>>): (r: nat)
    requires |loads| == |files| == SHARDS
    ensures r < SHARDS
    ensures forall i :: 0 <= i < SHARDS ==>
              || loads[r] < loads[i]
              || (loads[r] == loads[i] && (|files[r]| < |files[i]| || (|files[r]| == |files[i]| && r <= i)))
  {
    var a := if Precedes(loads, files, 1, 0) then 1 else 0;
    var b := if Precedes(loads, files, 2, a) then 2 else a;
    if Precedes(loads, files, 3, b) then 3 else b
  }

  /** The state of the allocation after placing the files of `order` on `shards`. */
  ghost predicate Allocation(order: seq<File>, weights: seq<real>, shards: seq<nat>, loads: seq<real>,
                             files: seq<seq<File>>)
  {
    && |order| == |weights| == |shards| && |loads| == |files| == SHARDS
    && Greedy(weights, shards)
    && forall i :: 0 <= i < SHARDS ==> loads[i] == Load(weights, shards, i) && files[i] == Placed(order, shards, i)
  }

  lemma AllocationStep(order: seq<File>, weights: seq<real>, shards: seq<nat>, loads: seq<real>, files: seq<seq<File>>,
                       path: File, weight: real)
    requires Allocation(order, weights, shards, loads, files)
    ensures var r := LeastShard(loads, files);
            Allocation(order + [path], weights + [weight], shards + [r],
                       loads[r := loads[r] + weight], files[r := files[r] + [path]])
  {
    var r := LeastShard(loads, files);
    var order', weights', shards' := order + [path], weights + [weight], shards + [r];
    var n := |order|;
    assert order'[..n] == order && weights'[..n] == weights && shards'[..n] == shards;
    forall k | 0 <= k < |shards'| ensures LeastLoaded(weights'[..k], shards'[..k], shards'[k]) {
      assert weights'[..k] == weights[..k] && shards'[..k] == shards[..k];
      if k < n { assert LeastLoaded(weights[..k], shards[..k], shards[k]); }
    }
  }

  /**
   What `count` placements leave behind. A shard without load is a shard without files, and while
   some shard is empty none holds two files, because an empty shard alone has no load.
   */
  ghost predicate Filling(loads: seq<real>, files: seq<seq<File>>, count: nat) {
    && |loads| == |files| == SHARDS
    && (forall i :: 0 <= i < SHARDS ==> loads[i] >= 0.0 && (loads[i] == 0.0 <==> files[i] == []))
    && ((exists i :: 0 <= i < SHARDS && files[i] == []) ==> forall i :: 0 <= i < SHARDS ==> |files[i]| <= 1)
    && |files[0]| + |files[1]| + |files[2]| + |files[3]| == count
  }

  lemma FillingStep(loads: seq<real>, files: seq<seq<File>>, count: nat, path: File, weight: real)
    requires Filling(loads, files, count) && weight > 0.0
    ensures var r := LeastShard(loads, files);
            Filling(loads[r := loads[r] + weight], files[r := files[r] + [path]], count + 1)
  {
    var r := LeastShard(loads, files);
    var files' := files[r := files[r] + [path]];
    if i :| 0 <= i < SHARDS && files'[i] == [] {
      assert files[i] == [] && loads[r] <= loads[i];
    }
  }

  /** Every shard has a file exactly when there are files enough. */
  lemma FillingEnds(loads: seq<real>, files: seq<seq<File>>, count: nat)
    requires Filling(loads, files, count)
    ensures (forall i :: 0 <= i < SHARDS ==> files[i] != []) <==> count >= SHARDS
  {
    if i :| 0 <= i < SHARDS && files[i] == [] {
      assert |files[0]| <= 1 && |files[1]| <= 1 && |files[2]| <= 1 && |files[3]| <= 1;
    }
  }

  lemma NothingPlaced()
    ensures Filling([0.0, 0.0, 0.0, 0.0], [[], [], [], []], 0)
    ensures Allocation([], [], [], [0.0, 0.0, 0.0, 0.0], [[], [], [], []])
  {
  }

  lemma WeightsOfAt(order: seq<File>, weights: map<File, real>)
    requires forall path <- order :: path in weights
    ensures |WeightsOf(order, weights)| == |order|
    ensures forall k :: 0 <= k < |order| ==> WeightsOf(order, weights)[k] == weights[order[k]]
  {
  }

  lemma FillingSizes(loads: seq<real>, files: seq<seq<File>>, count: nat)
    requires Filling(loads, files, count)
    ensures |loads| == |files| == SHARDS
  {
  }

  method Allocate(order: seq<File>, weights: map<File, real>)
    returns (loads: seq<real>, files: seq<seq<File>>, ghost shards: seq<nat>)
    requires forall path <- order :: path in weights && weights[path] > 0.0
    ensures Allocation(order, WeightsOf(order, weights), shards, loads, files)
    ensures (forall i :: 0 <= i < SHARDS ==> files[i] != []) <==> |order| >= SHARDS
  {
    hide Allocation, Filling, LeastShard, WeightsOf;
    loads, files, shards := [0.0, 0.0, 0.0, 0.0], [[], [], [], []], [];
    ghost var all := WeightsOf(order, weights);
    NothingPlaced();
    WeightsOfAt(order, weights);
    assert order[..0] == [] && all[..0] == [];
    for k := 0 to |order|
      invariant Filling(loads, files, k)
      invariant Allocation(order[..k], all[..k], shards, loads, files)
    {
      FillingSizes(loads, files, k);
      assert order[k] in order;
      AllocationStep(order[..k], all[..k], shards, loads, files, order[k], all[k]);
      FillingStep(loads, files, k, order[k], all[k]);
      assert order[..k] + [order[k]] == order[..k + 1] && all[..k] + [all[k]] == all[..k + 1];
      var index := LeastShard(loads, files);
      shards := shards + [index];
      files := files[index := files[index] + [order[k]]];
      loads := loads[index := loads[index] + weights[order[k]]];
    }
    FillingEnds(loads, files, |order|);
    assert order[..|order|] == order && all[..|all|] == all;
  }
}
