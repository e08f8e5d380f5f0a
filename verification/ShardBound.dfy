/**
 How even the longest-first greedy allocation of scripts/windows_test_shards.py is.

 `weights` lists file durations in the order they are placed, and `shards` the shard each one
 goes to. Durations are positive reals.
 */
module ShardBound {

  const SHARDS: nat := 4

  predicate Positive(weights: seq<real>) {
    forall k :: 0 <= k < |weights| ==> weights[k] > 0.0
  }

  predicate HeaviestFirst(weights: seq<real>) {
    forall j, k :: 0 <= j <= k < |weights| ==> weights[j] >= weights[k]
  }

  predicate Assignment(weights: seq<real>, shards: seq<nat>) {
    |shards| == |weights| && forall k :: 0 <= k < |shards| ==> shards[k] < SHARDS
  }

  function Load(weights: seq<real>, shards: seq<nat>, i: nat): real
    requires |weights| == |shards|
  {
    if weights == [] then 0.0
    else
      var n := |weights| - 1;
      Load(weights[..n], shards[..n], i) + if shards[n] == i then weights[n] else 0.0
  }

  function Count(shards: seq<nat>, i: nat): nat {
    if shards == [] then 0
    else Count(shards[..|shards| - 1], i) + if shards[|shards| - 1] == i then 1 else 0
  }

  function Total(weights: seq<real>): real {
    if weights == [] then 0.0 else Total(weights[..|weights| - 1]) + weights[|weights| - 1]
  }

  function Larger(a: real, b: real): real {
    if a >= b then a else b
  }

  function MaxLoad(weights: seq<real>, shards: seq<nat>): (r: real)
    requires |weights| == |shards|
    ensures forall i :: 0 <= i < SHARDS ==> Load(weights, shards, i) <= r
    ensures exists i :: 0 <= i < SHARDS && Load(weights, shards, i) == r
  {
    var r := Larger(Larger(Load(weights, shards, 0), Load(weights, shards, 1)),
                    Larger(Load(weights, shards, 2), Load(weights, shards, 3)));
    assert r == Load(weights, shards, 0) || r == Load(weights, shards, 1)
           || r == Load(weights, shards, 2) || r == Load(weights, shards, 3);
    r
  }

  ghost predicate LeastLoaded(weights: seq<real>, shards: seq<nat>, j: nat)
    requires |weights| == |shards|
  {
    forall i :: 0 <= i < SHARDS ==> Load(weights, shards, j) <= Load(weights, shards, i)
  }

  /** Each file went to a shard that was least loaded when it was placed. */
  ghost predicate Greedy(weights: seq<real>, shards: seq<nat>) {
    && Assignment(weights, shards)
    && forall k :: 0 <= k < |shards| ==> LeastLoaded(weights[..k], shards[..k], shards[k])
  }

  // ----- sums

  lemma {:induction false} LoadsAddUp(weights: seq<real>, shards: seq<nat>)
    requires Assignment(weights, shards)
    ensures Load(weights, shards, 0) + Load(weights, shards, 1) + Load(weights, shards, 2) + Load(weights, shards, 3)
            == Total(weights)
  {
    if weights != [] { LoadsAddUp(weights[..|weights| - 1], shards[..|shards| - 1]); }
  }

  lemma {:induction false} CountsAddUp(shards: seq<nat>)
    requires forall k :: 0 <= k < |shards| ==> shards[k] < SHARDS
    ensures Count(shards, 0) + Count(shards, 1) + Count(shards, 2) + Count(shards, 3) == |shards|
  {
    if shards != [] { CountsAddUp(shards[..|shards| - 1]); }
  }

  /** Loads and totals only grow as more files are placed. */
  lemma {:induction false} PrefixLoads(weights: seq<real>, shards: seq<nat>, k: nat, i: nat)
    requires Positive(weights) && |weights| == |shards| && k <= |weights|
    ensures 0.0 <= Load(weights[..k], shards[..k], i) <= Load(weights, shards, i)
    decreases |weights|
  {
    var n := |weights|;
    if k < n {
      PrefixLoads(weights[..n - 1], shards[..n - 1], k, i);
      assert weights[..n - 1][..k] == weights[..k] && shards[..n - 1][..k] == shards[..k];
    } else if n > 0 {
      assert weights[..k] == weights && shards[..k] == shards;
      PrefixLoads(weights[..n - 1], shards[..n - 1], n - 1, i);
      assert weights[..n - 1][..n - 1] == weights[..n - 1] && shards[..n - 1][..n - 1] == shards[..n - 1];
    }
  }

  lemma {:induction false} TotalCovers(weights: seq<real>, k: nat)
    requires Positive(weights) && k < |weights|
    ensures Total(weights[..k]) + weights[k] <= Total(weights)
    decreases |weights|
  {
    var n := |weights|;
    if k < n - 1 {
      TotalCovers(weights[..n - 1], k);
      assert weights[..n - 1][..k] == weights[..k];
    }
  }

  /** A file weighs no more than the shard it is in, and two of them no more together. */
  lemma {:induction false} FileWithinLoad(weights: seq<real>, shards: seq<nat>, k: nat)
    requires Positive(weights) && |weights| == |shards| && k < |weights|
    ensures weights[k] <= Load(weights, shards, shards[k])
  {
    PrefixLoads(weights, shards, k + 1, shards[k]);
    PrefixLoads(weights, shards, k, shards[k]);
    assert weights[..k + 1][..k] == weights[..k] && shards[..k + 1][..k] == shards[..k];
  }

  lemma TwoFilesWithinLoad(weights: seq<real>, shards: seq<nat>, j: nat, k: nat)
    requires Positive(weights) && |weights| == |shards| && j < k < |weights| && shards[j] == shards[k]
    ensures weights[j] + weights[k] <= Load(weights, shards, shards[k])
  {
    PrefixLoads(weights, shards, k + 1, shards[k]);
    assert weights[..k + 1][..k] == weights[..k] && shards[..k + 1][..k] == shards[..k];
    FileWithinLoad(weights[..k], shards[..k], j);
  }

  /** The file placed last on a loaded shard. */
  lemma {:induction false} LastFile(weights: seq<real>, shards: seq<nat>, i: nat) returns (k: nat)
    requires |weights| == |shards| && Load(weights, shards, i) > 0.0
    ensures k < |weights| && shards[k] == i
    ensures Load(weights, shards, i) == Load(weights[..k], shards[..k], i) + weights[k]
    decreases |weights|
  {
    var n := |weights| - 1;
    if shards[n] == i {
      k := n;
    } else {
      k := LastFile(weights[..n], shards[..n], i);
      assert weights[..n][..k] == weights[..k] && shards[..n][..k] == shards[..k];
    }
  }

  lemma PrefixGreedy(weights: seq<real>, shards: seq<nat>, n: nat)
    requires Greedy(weights, shards) && n <= |weights|
    ensures Greedy(weights[..n], shards[..n])
  {
    forall k | 0 <= k < n ensures LeastLoaded(weights[..n][..k], shards[..n][..k], shards[..n][k]) {
      assert weights[..n][..k] == weights[..k] && shards[..n][..k] == shards[..k];
    }
  }

  // ----- the spread between shards, and the bound that holds in any order

  /** A file is placed on at most a quarter of what was placed before it. */
  lemma PlacedOnAQuarter(weights: seq<real>, shards: seq<nat>, k: nat)
    requires Greedy(weights, shards) && k < |weights|
    ensures 4.0 * Load(weights[..k], shards[..k], shards[k]) <= Total(weights[..k])
  {
    LoadsAddUp(weights[..k], shards[..k]);
    assert LeastLoaded(weights[..k], shards[..k], shards[k]);
  }

  /** No shard exceeds another by more than some one file that it holds. */
  lemma Spread(weights: seq<real>, shards: seq<nat>, i: nat, j: nat) returns (k: nat)
    requires Positive(weights) && Greedy(weights, shards) && i < SHARDS && j < SHARDS && Load(weights, shards, i) > 0.0
    ensures k < |weights| && shards[k] == i && Load(weights, shards, i) <= Load(weights, shards, j) + weights[k]
  {
    k := LastFile(weights, shards, i);
    PrefixLoads(weights, shards, k, j);
    assert LeastLoaded(weights[..k], shards[..k], shards[k]);
  }

  /** The largest load is at most the smallest plus the heaviest file. */
  lemma MaxWithinMinPlusHeaviest(weights: seq<real>, shards: seq<nat>, j: nat)
    requires Positive(weights) && HeaviestFirst(weights) && Greedy(weights, shards) && weights != [] && j < SHARDS
    ensures MaxLoad(weights, shards) <= Load(weights, shards, j) + weights[0]
  {
    var i :| 0 <= i < SHARDS && Load(weights, shards, i) == MaxLoad(weights, shards);
    FileWithinLoad(weights, shards, 0);
    assert Load(weights, shards, shards[0]) <= MaxLoad(weights, shards);
    var k := Spread(weights, shards, i, j);
  }

  /** Any assignment's largest load is at least a quarter of the total. */
  lemma QuarterWithinMax(weights: seq<real>, other: seq<nat>)
    requires Assignment(weights, other)
    ensures Total(weights) <= 4.0 * MaxLoad(weights, other)
  {
    LoadsAddUp(weights, other);
  }

  /** A load ending with file k is at most the other assignment's maximum plus three quarters of that file. */
  lemma LoadWithinMaxPlusFile(weights: seq<real>, shards: seq<nat>, other: seq<nat>, k: nat)
    requires Positive(weights) && Greedy(weights, shards) && Assignment(weights, other) && k < |weights|
    ensures 4.0 * (Load(weights[..k], shards[..k], shards[k]) + weights[k])
            <= 4.0 * MaxLoad(weights, other) + 3.0 * weights[k]
  {
    PlacedOnAQuarter(weights, shards, k);
    TotalCovers(weights, k);
    QuarterWithinMax(weights, other);
  }

  /** In any order of placement the greedy maximum is at most 7/4 of any other assignment's. */
  lemma WithinSevenQuarters(weights: seq<real>, shards: seq<nat>, other: seq<nat>)
    requires Positive(weights) && Greedy(weights, shards) && Assignment(weights, other)
    ensures 4.0 * MaxLoad(weights, shards) <= 7.0 * MaxLoad(weights, other)
  {
    var i :| 0 <= i < SHARDS && Load(weights, shards, i) == MaxLoad(weights, shards);
    PrefixLoads(weights, other, 0, 0);
    if Load(weights, shards, i) > 0.0 {
      var k := LastFile(weights, shards, i);
      LoadWithinMaxPlusFile(weights, shards, other, k);
      FileWithinLoad(weights, other, k);
    }
  }

  // ----- heaviest first: at most 5/4

  /** Files heavier than m make loads heavier than m, 2m and 3m. */
  lemma {:induction false} CountBoundsLoad(weights: seq<real>, shards: seq<nat>, i: nat, m: real)
    requires |weights| == |shards| && m >= 0.0
    requires forall k :: 0 <= k < |weights| ==> weights[k] > m
    ensures Load(weights, shards, i) >= 0.0
    ensures Count(shards, i) >= 1 ==> Load(weights, shards, i) > m
    ensures Count(shards, i) >= 2 ==> Load(weights, shards, i) > 2.0 * m
    ensures Count(shards, i) >= 3 ==> Load(weights, shards, i) > 3.0 * m
    ensures Count(shards, i) == 0 ==> Load(weights, shards, i) == 0.0
    decreases |weights|
  {
    if weights != [] { CountBoundsLoad(weights[..|weights| - 1], shards[..|shards| - 1], i, m); }
  }

  lemma {:induction false} EmptyLoad(weights: seq<real>, shards: seq<nat>, i: nat)
    requires |weights| == |shards| && Count(shards, i) == 0
    ensures Load(weights, shards, i) == 0.0
    decreases |weights|
  {
    if weights != [] { EmptyLoad(weights[..|weights| - 1], shards[..|shards| - 1], i); }
  }

  /** The only file of a shard that holds one. */
  lemma {:induction false} SoleFile(weights: seq<real>, shards: seq<nat>, i: nat) returns (k: nat)
    requires |weights| == |shards| && Count(shards, i) == 1
    ensures k < |weights| && shards[k] == i && Load(weights, shards, i) == weights[k]
    decreases |weights|
  {
    var n := |weights| - 1;
    if shards[n] == i {
      k := n;
      EmptyLoad(weights[..n], shards[..n], i);
    } else {
      k := SoleFile(weights[..n], shards[..n], i);
    }
  }

  /** A shard that no file but k is on counts at most one. */
  lemma {:induction false} LoneCount(shards: seq<nat>, i: nat, k: nat)
    requires forall j :: 0 <= j < |shards| && j != k ==> shards[j] != i
    ensures Count(shards, i) <= 1
    ensures k >= |shards| ==> Count(shards, i) == 0
    decreases |shards|
  {
    if shards != [] { LoneCount(shards[..|shards| - 1], i, k); }
  }

  function Ones(marked: set<nat>): nat {
    (if 0 in marked then 1 else 0) + (if 1 in marked then 1 else 0)
    + (if 2 in marked then 1 else 0) + (if 3 in marked then 1 else 0)
  }

  lemma OnesIsSize(marked: set<nat>)
    requires forall i <- marked :: i < SHARDS
    ensures Ones(marked) == |marked|
  {
    var without3 := marked - {3};
    var without23 := without3 - {2};
    var without123 := without23 - {1};
    assert without123 - {0} == {};
    assert |marked| == |without3| + if 3 in marked then 1 else 0;
    assert |without3| == |without23| + if 2 in marked then 1 else 0;
    assert |without23| == |without123| + if 1 in marked then 1 else 0;
    assert |without123| == if 0 in marked then 1 else 0 by {
      if 0 in marked { assert without123 == {0}; } else { assert without123 == {}; }
    }
  }

  lemma {:induction false} ImageSize(from: set<nat>, f: map<nat, nat>, to: set<nat>)
    requires from <= f.Keys
    requires forall i, j :: i in from && j in from && i != j ==> f[i] != f[j]
    requires to == set i | i in from :: f[i]
    ensures |to| == |from|
  {
    if from != {} {
      var x :| x in from;
      var rest := set i | i in from - {x} :: f[i];
      ImageSize(from - {x}, f, rest);
      assert to == rest + {f[x]};
    }
  }

  /** Before a file heavier than a third of T overflows T, every greedy shard holds one or two files. */
  lemma GreedyHoldsOneOrTwo(weights: seq<real>, shards: seq<nat>, k: nat, T: real, i: nat)
    requires Positive(weights) && HeaviestFirst(weights) && Greedy(weights, shards)
    requires k < |weights| && i < SHARDS && T >= 0.0 && weights[k] <= T && 3.0 * weights[k] > T
    requires Load(weights[..k], shards[..k], i) <= T
    requires Load(weights[..k], shards[..k], shards[k]) + weights[k] > T
    ensures 1 <= Count(shards[..k], i) <= 2
  {
    assert forall j :: 0 <= j < k ==> weights[j] >= weights[k];
    CountBoundsLoad(weights[..k], shards[..k], i, T / 3.0);
    assert LeastLoaded(weights[..k], shards[..k], shards[k]);
  }

  /** An assignment within T puts at most two files heavier than a third of T on a shard. */
  lemma OtherHoldsTwo(weights: seq<real>, other: seq<nat>, k: nat, T: real, i: nat)
    requires Positive(weights) && HeaviestFirst(weights) && Assignment(weights, other)
    requires k < |weights| && i < SHARDS && T >= 0.0 && 3.0 * weights[k] > T && MaxLoad(weights, other) <= T
    ensures Count(other[..k + 1], i) <= 2
  {
    assert forall j :: 0 <= j <= k ==> weights[j] >= weights[k];
    CountBoundsLoad(weights[..k + 1], other[..k + 1], i, T / 3.0);
    PrefixLoads(weights, other, k + 1, i);
  }

  /** Counts of one or two add up to eight less the ones. */
  lemma OneOrTwoEach(shards: seq<nat>, lone: set<nat>)
    requires forall k :: 0 <= k < |shards| ==> shards[k] < SHARDS
    requires forall i :: 0 <= i < SHARDS ==> 1 <= Count(shards, i) <= 2
    requires forall i :: i in lone <==> 0 <= i < SHARDS && Count(shards, i) == 1
    ensures |shards| == 8 - |lone|
  {
    OnesIsSize(lone);
    CountsAddUp(shards);
    assert 0 in lone <==> Count(shards, 0) == 1;
    assert 1 in lone <==> Count(shards, 1) == 1;
    assert 2 in lone <==> Count(shards, 2) == 1;
    assert 3 in lone <==> Count(shards, 3) == 1;
  }

  lemma AtMostTwoEach(shards: seq<nat>, taken: set<nat>)
    requires forall k :: 0 <= k < |shards| ==> shards[k] < SHARDS
    requires forall i :: 0 <= i < SHARDS ==> Count(shards, i) <= 2
    requires forall i <- taken :: i < SHARDS && Count(shards, i) <= 1
    ensures |shards| <= 8 - |taken|
  {
    OnesIsSize(taken);
    CountsAddUp(shards);
    assert Count(shards, 0) <= 2 && Count(shards, 1) <= 2 && Count(shards, 2) <= 2 && Count(shards, 3) <= 2;
  }

  lemma GreedyAssigns(weights: seq<real>, shards: seq<nat>)
    requires Greedy(weights, shards)
    ensures Assignment(weights, shards)
  {
  }

  /** A file that overflows T together with the lightest so far shares a shard within T with no other. */
  lemma LoneStaysAlone(weights: seq<real>, shards: seq<nat>, other: seq<nat>, k: nat, T: real, s: nat, j: nat)
    requires Positive(weights) && HeaviestFirst(weights) && Greedy(weights, shards) && Assignment(weights, other)
    requires s < k < |weights| && j <= k && j != s && MaxLoad(weights, other) <= T
    requires Load(weights[..k], shards[..k], shards[k]) + weights[k] > T
    requires Load(weights[..k], shards[..k], shards[s]) == weights[s]
    ensures other[j] != other[s]
  {
    assert LeastLoaded(weights[..k], shards[..k], shards[k]);
    assert weights[j] >= weights[k];
    if other[j] == other[s] {
      if j < s { TwoFilesWithinLoad(weights, other, j, s); } else { TwoFilesWithinLoad(weights, other, s, j); }
    }
  }

  /** The sole file of each shard that holds one. */
  lemma SoleFiles(weights: seq<real>, shards: seq<nat>, lone: set<nat>) returns (sole: map<nat, nat>)
    requires |weights| == |shards| && forall i <- lone :: Count(shards, i) == 1
    ensures sole.Keys == lone
    ensures forall i <- sole ::
              sole[i] < |shards| && shards[sole[i]] == i && Load(weights, shards, i) == weights[sole[i]]
  {
    sole := map[];
    var todo := lone;
    while todo != {}
      invariant todo <= lone && sole.Keys == lone - todo
      invariant forall i <- sole ::
                  sole[i] < |shards| && shards[sole[i]] == i && Load(weights, shards, i) == weights[sole[i]]
      decreases todo
    {
      var i :| i in todo;
      var s := SoleFile(weights, shards, i);
      sole := sole[i := s];
      todo := todo - {i};
    }
  }

  /** Where the other assignment puts the files that are alone on their greedy shard: each alone again. */
  lemma LonePlaces(weights: seq<real>, shards: seq<nat>, other: seq<nat>, k: nat, T: real, lone: set<nat>)
    returns (taken: set<nat>)
    requires Positive(weights) && HeaviestFirst(weights) && Greedy(weights, shards) && Assignment(weights, other)
    requires k < |weights| && MaxLoad(weights, other) <= T
    requires Load(weights[..k], shards[..k], shards[k]) + weights[k] > T
    requires forall i <- lone :: i < SHARDS && Count(shards[..k], i) == 1
    ensures |taken| == |lone|
    ensures forall i <- taken :: i < SHARDS && Count(other[..k + 1], i) <= 1
  {
    hide Load, Count, Greedy, HeaviestFirst, Positive, MaxLoad;
    GreedyAssigns(weights, shards);
    var sole := SoleFiles(weights[..k], shards[..k], lone);
    var place := map i | i in lone :: other[sole[i]];
    forall i <- lone ensures place[i] < SHARDS && Count(other[..k + 1], place[i]) <= 1 {
      forall j | 0 <= j <= k && j != sole[i] ensures other[j] != other[sole[i]] {
        LoneStaysAlone(weights, shards, other, k, T, sole[i], j);
      }
      LoneCount(other[..k + 1], place[i], sole[i]);
    }
    forall i, j | i in lone && j in lone && i != j ensures place[i] != place[j] {
      LoneStaysAlone(weights, shards, other, k, T, sole[i], sole[j]);
    }
    taken := set i | i in lone :: place[i];
    ImageSize(lone, place, taken);
  }

  /**
   The heart of the bound. Were file k, heavier than a third of T, the first to push a greedy
   shard above T, then each shard before it holds one or two files, and a file alone there is
   alone in any assignment within T: one file too many for four shards.
   */
  lemma FirstOverflowIsLight(weights: seq<real>, shards: seq<nat>, other: seq<nat>, k: nat, T: real)
    requires Positive(weights) && HeaviestFirst(weights) && Greedy(weights, shards) && Assignment(weights, other)
    requires k < |weights| && MaxLoad(weights, other) <= T
    requires forall i :: 0 <= i < SHARDS ==> Load(weights[..k], shards[..k], i) <= T
    requires Load(weights[..k], shards[..k], shards[k]) + weights[k] > T
    ensures 3.0 * weights[k] <= T
  {
    if 3.0 * weights[k] > T {
      hide Load, Count, Greedy, HeaviestFirst;
      FileWithinLoad(weights, other, k);
      assert weights[k] <= T;
      var lone := set i | 0 <= i < SHARDS && Count(shards[..k], i) == 1;
      forall i | 0 <= i < SHARDS ensures 1 <= Count(shards[..k], i) <= 2 {
        GreedyHoldsOneOrTwo(weights, shards, k, T, i);
      }
      var upToK := other[..k + 1];
      forall i | 0 <= i < SHARDS ensures Count(upToK, i) <= 2 {
        OtherHoldsTwo(weights, other, k, T, i);
      }
      GreedyAssigns(weights, shards);
      OneOrTwoEach(shards[..k], lone);
      var taken := LonePlaces(weights, shards, other, k, T, lone);
      AtMostTwoEach(upToK, taken);
    }
  }

  /** The first file whose placement takes a greedy shard above T. */
  lemma {:induction false} FirstOverflow(weights: seq<real>, shards: seq<nat>, T: real, i: nat) returns (k: nat)
    requires Greedy(weights, shards) && T >= 0.0 && i < SHARDS && Load(weights, shards, i) > T
    ensures k < |weights| && Load(weights[..k], shards[..k], shards[k]) + weights[k] > T
    ensures forall j :: 0 <= j < SHARDS ==> Load(weights[..k], shards[..k], j) <= T
    decreases |weights|
  {
    var n := |weights| - 1;
    if j :| 0 <= j < SHARDS && Load(weights[..n], shards[..n], j) > T {
      PrefixGreedy(weights, shards, n);
      k := FirstOverflow(weights[..n], shards[..n], T, j);
      assert weights[..n][..k] == weights[..k] && shards[..n][..k] == shards[..k];
    } else {
      k := n;
    }
  }

  /** What a shard held once a file was placed is within what it holds later. */
  lemma PlacedEarlier(weights: seq<real>, shards: seq<nat>, earlier: nat, later: nat)
    requires Positive(weights) && |weights| == |shards| && earlier < later < |weights|
    ensures Load(weights[..earlier], shards[..earlier], shards[earlier]) + weights[earlier]
            <= Load(weights[..later], shards[..later], shards[earlier])
  {
    PrefixLoads(weights[..later], shards[..later], earlier + 1, shards[earlier]);
    assert weights[..later][..earlier + 1] == weights[..earlier + 1]
           && shards[..later][..earlier + 1] == shards[..earlier + 1];
    assert weights[..earlier + 1][..earlier] == weights[..earlier]
           && shards[..earlier + 1][..earlier] == shards[..earlier];
  }

  /** Placed heaviest first, the greedy maximum is at most 5/4 of any other assignment's. */
  lemma WithinFiveQuarters(weights: seq<real>, shards: seq<nat>, other: seq<nat>)
    requires Positive(weights) && HeaviestFirst(weights) && Greedy(weights, shards) && Assignment(weights, other)
    ensures 4.0 * MaxLoad(weights, shards) <= 5.0 * MaxLoad(weights, other)
  {
    var T := MaxLoad(weights, other);
    PrefixLoads(weights, other, 0, 0);
    var i :| 0 <= i < SHARDS && Load(weights, shards, i) == MaxLoad(weights, shards);
    if Load(weights, shards, i) > T {
      var first := FirstOverflow(weights, shards, T, i);
      FirstOverflowIsLight(weights, shards, other, first, T);
      var last := LastFile(weights, shards, i);
      LoadWithinMaxPlusFile(weights, shards, other, last);
      if last < first { PlacedEarlier(weights, shards, last, first); }
    }
  }
}
