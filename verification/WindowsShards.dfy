/**
 The test partition of scripts/windows_test_shards.py: serial groups by selector, every other
 file to one of four shards, and an independent validator of the resulting plan.
 */
module WindowsShards {
  import opened Outcomes
  import opened Collections

  type Node = string
  type File = string

  datatype SerialGroup = SerialGroup(name: string, selectors: seq<string>)

  const POPUP_CLEANUP := "test_failed_excess_popup_cleanup_closes_only_its_owned_session"

  const SERIAL_GROUPS: seq<SerialGroup> := [
    SerialGroup("workspace", ["tests/test_workspace_ui.py" + "::test_workspace_mutation_recovery_in_javascript"]),
    SerialGroup("native", ["tests/test_startup_native.py"]),
    SerialGroup("task-scheduler",
                ["tests/test_autostart.py" + "::test_windows_task_passes_native_in_memory_validation"]),
    SerialGroup("owner-pipe", ["tests/test_owner_json_pipe.py"]),
    SerialGroup("terminal", ["tests/test_terminal_children.py", "tests/test_terminal_pty.py",
                             "tests/test_terminal_conpty.py", "tests/test_file_search_terminal_workflow.py"]),
    SerialGroup("reconnect", ["tests/test_shared_agent_reconnect.py",
                              "tests/test_direct_mcp_sessions.py"
                                + "::test_shared_agent_receives_http_watch_authority"]),
    SerialGroup("browser-cleanup", ["tests/test_browser_control.py",
                                    "tests/test_browser_tabs_dialogs.py" + "::" + POPUP_CLEANUP + "[normal]",
                                    "tests/test_browser_tabs_dialogs.py" + "::" + POPUP_CLEANUP
                                      + "[slow-browser-close]"]),
    SerialGroup("connection-recovery",
                ["tests/test_connection_frame_draft_browser.py", "tests/test_engine_migration.py"])
  ]

  /** A row of the recorded durations: a file's total seconds over its number of tests. */
  datatype Cost = Cost(path: File, seconds: real, tests: int)

  datatype GroupName = Serial(name: string) | Shard(index: nat)
  datatype Group = Group(selectors: seq<string>, nodes: seq<Node>)
  datatype Entry = Entry(name: GroupName, group: Group)
  datatype Plan = Plan(version: int, allNodes: seq<Node>, groups: seq<Entry>)

  datatype PlanError = NotUnique | SerialEmptyOrOverlapping | SelectorGone | NoCosts | NoTests | EmptyShard | Invalid

  // ----- nodes, files and selectors

  /** The part of a node id before its first "::". */
  function FileOf(node: Node): File {
    if node == "" || "::" <= node then "" else [node[0]] + FileOf(node[1..])
  }

  /** It ends at the first "::", or with the id if there is none. */
  lemma {:induction false} FileEndsAtMark(node: Node)
    ensures var n := |FileOf(node)|;
            && FileOf(node) <= node && (n == |node| || "::" <= node[n..])
            && forall k :: 0 <= k < n ==> !("::" <= node[k..])
  {
    if node != "" && !("::" <= node) {
      FileEndsAtMark(node[1..]);
      forall k | 0 <= k < |FileOf(node)| ensures !("::" <= node[k..]) {
        if k > 0 { assert node[k..] == node[1..][k - 1..]; } else { assert node[0..] == node; }
      }
      assert node[|FileOf(node)|..] == node[1..][|FileOf(node[1..])|..];
    } else {
      assert node[0..] == node;
    }
  }

  predicate Matches(node: Node, selector: string) {
    node == selector || selector + "::" <= node
  }

  predicate MatchesAny(node: Node, selectors: seq<string>) {
    exists i :: 0 <= i < |selectors| && Matches(node, selectors[i])
  }

  predicate InSerial(serial: seq<SerialGroup>, node: Node) {
    exists i :: 0 <= i < |serial| && MatchesAny(node, serial[i].selectors)
  }

  function Selected(nodes: seq<Node>, selectors: seq<string>): seq<Node> {
    Where(n => MatchesAny(n, selectors), nodes)
  }

  /** The nodes of no serial group. */
  function Remaining(serial: seq<SerialGroup>, nodes: seq<Node>): seq<Node> {
    Where(n => !InSerial(serial, n), nodes)
  }

  function NodesOf(nodes: seq<Node>, path: File): seq<Node> {
    Where(n => FileOf(n) == path, nodes)
  }

  function NodesOfAll(nodes: seq<Node>, paths: seq<File>): seq<Node> {
    if paths == [] then [] else NodesOf(nodes, paths[0]) + NodesOfAll(nodes, paths[1..])
  }

  function Files(nodes: seq<Node>): set<File> {
    set n | n in nodes :: FileOf(n)
  }

  function AllSelected(groups: seq<Entry>): seq<Node> {
    if groups == [] then [] else AllSelected(groups[..|groups| - 1]) + groups[|groups| - 1].group.nodes
  }

  // ----- what the validator accepts

  ghost predicate ValidGroup(serial: seq<SerialGroup>, e: Entry) {
    && e.group.nodes != [] && e.group.selectors != []
    && match e.name
       case Shard(_) => Unique(e.group.selectors) && Files(e.group.nodes) == set p | p in e.group.selectors
       case Serial(name) =>
         exists i :: 0 <= i < |serial| && serial[i].name == name && serial[i].selectors == e.group.selectors
  }

  function ExpectedNames(serial: seq<SerialGroup>): set<GroupName> {
    (set i | 0 <= i < |serial| :: Serial(serial[i].name)) + {Shard(1), Shard(2), Shard(3), Shard(4)}
  }

  function Names(groups: seq<Entry>): seq<GroupName> {
    seq(|groups|, i requires 0 <= i < |groups| => groups[i].name)
  }

  /** No file is in two shards. */
  ghost predicate FilesApart(groups: seq<Entry>) {
    forall i, j :: 0 <= i < j < |groups| && groups[i].name.Shard? && groups[j].name.Shard? ==>
      Files(groups[i].group.nodes) !! Files(groups[j].group.nodes)
  }

  ghost predicate ValidPlan(serial: seq<SerialGroup>, plan: Plan) {
    && plan.version == 1
    && (set n | n in Names(plan.groups)) == ExpectedNames(serial)
    && plan.allNodes != [] && Unique(plan.allNodes)
    && multiset(AllSelected(plan.groups)) == multiset(plan.allNodes)
    && (forall i :: 0 <= i < |plan.groups| ==> ValidGroup(serial, plan.groups[i]))
    && FilesApart(plan.groups)
  }

  /** The groups form a dictionary, and the serial groups are named apart. */
  ghost predicate Keyed(serial: seq<SerialGroup>, groups: seq<Entry>) {
    && Unique(Names(groups))
    && forall i, j :: 0 <= i < j < |serial| ==> serial[i].name != serial[j].name
  }

  /** The selectors of the serial group with this name. */
  method SerialSelectors(serial: seq<SerialGroup>, name: string) returns (found: Option<seq<string>>)
    requires forall i, j :: 0 <= i < j < |serial| ==> serial[i].name != serial[j].name
    ensures found.Some? <==> exists i :: 0 <= i < |serial| && serial[i].name == name
    ensures forall i :: 0 <= i < |serial| && serial[i].name == name ==> found == Some(serial[i].selectors)
  {
    found := None;
    for k := 0 to |serial|
      invariant found.Some? <==> exists i :: 0 <= i < k && serial[i].name == name
      invariant forall i :: 0 <= i < k && serial[i].name == name ==> found == Some(serial[i].selectors)
    {
      if serial[k].name == name { found := Some(serial[k].selectors); }
    }
  }

  /** A sequence is as long as its set of elements exactly when nothing repeats. */
  lemma {:induction false} SetOfUnique<T>(s: seq<T>)
    ensures |set x | x in s| <= |s|
    ensures Unique(s) <==> |set x | x in s| == |s|
  {
    if s != [] {
      SetOfUnique(s[1..]);
      var rest := set x | x in s[1..];
      assert (set x | x in s) == rest + {s[0]};
    }
  }

  /** The checks of one group; a shard's files must be new. */
  method ValidateGroup(serial: seq<SerialGroup>, e: Entry, seenFiles: set<File>) returns (ok: bool)
    requires forall i, j :: 0 <= i < j < |serial| ==> serial[i].name != serial[j].name
    ensures ok <==> ValidGroup(serial, e) && (e.name.Shard? ==> seenFiles !! Files(e.group.nodes))
  {
    if e.group.nodes == [] || e.group.selectors == [] { return false; }
    match e.name
    case Shard(_) =>
      var paths := Files(e.group.nodes);
      SetOfUnique(e.group.selectors);
      var selectors := set p | p in e.group.selectors;
      ok := paths == selectors && seenFiles !! paths && |e.group.selectors| == |paths|;
      assert selectors == set x | x in e.group.selectors;
      assert ok <==> Unique(e.group.selectors) && paths == selectors && seenFiles !! paths;
    case Serial(name) =>
      var expected := SerialSelectors(serial, name);
      ok := expected == Some(e.group.selectors);
      assert ok <==> exists i ::
               0 <= i < |serial| && serial[i].name == name && serial[i].selectors == e.group.selectors;
  }

  /** The files of the shards among these groups. */
  function ShardFiles(groups: seq<Entry>): set<File> {
    if groups == [] then {}
    else
      ShardFiles(groups[..|groups| - 1])
      + if groups[|groups| - 1].name.Shard? then Files(groups[|groups| - 1].group.nodes) else {}
  }

  lemma NoGroups(groups: seq<Entry>)
    ensures FilesApart(groups[..0]) && ShardFiles(groups[..0]) == {}
  {
  }

  lemma ApartPrefix(groups: seq<Entry>, k: nat)
    requires k <= |groups| && FilesApart(groups)
    ensures FilesApart(groups[..k])
  {
    hide Files;
  }

  lemma {:induction false} ShardFilesIn(groups: seq<Entry>, f: File)
    ensures f in ShardFiles(groups)
            <==> exists i :: 0 <= i < |groups| && groups[i].name.Shard? && f in Files(groups[i].group.nodes)
  {
    if groups != [] {
      hide Files;
      var n := |groups| - 1;
      ShardFilesIn(groups[..n], f);
      if f in ShardFiles(groups[..n]) {
        var i :| 0 <= i < n && groups[..n][i].name.Shard? && f in Files(groups[..n][i].group.nodes);
        assert groups[i].name.Shard? && f in Files(groups[i].group.nodes);
      }
      if i :| 0 <= i < |groups| && groups[i].name.Shard? && f in Files(groups[i].group.nodes) {
        if i < n { assert groups[..n][i] == groups[i]; }
      }
    }
  }

  /** The next group keeps files apart exactly when its files are new. */
  lemma ApartStep(groups: seq<Entry>, k: nat)
    requires k < |groups|
    ensures ShardFiles(groups[..k + 1])
            == ShardFiles(groups[..k]) + if groups[k].name.Shard? then Files(groups[k].group.nodes) else {}
    ensures FilesApart(groups[..k + 1]) <==>
              && FilesApart(groups[..k])
              && (groups[k].name.Shard? ==> ShardFiles(groups[..k]) !! Files(groups[k].group.nodes))
  {
    hide Files;
    var to, upto := groups[..k], groups[..k + 1];
    assert upto[..k] == to && upto[k] == groups[k];
    if FilesApart(upto) {
      forall i, j | 0 <= i < j < k && to[i].name.Shard? && to[j].name.Shard?
        ensures Files(to[i].group.nodes) !! Files(to[j].group.nodes)
      {
        assert upto[i] == to[i] && upto[j] == to[j];
      }
      if groups[k].name.Shard? {
        forall f | f in ShardFiles(to) ensures f !in Files(groups[k].group.nodes) {
          ShardFilesIn(to, f);
          var i :| 0 <= i < k && to[i].name.Shard? && f in Files(to[i].group.nodes);
          assert upto[i] == to[i];
        }
      }
    }
    if FilesApart(to) && (groups[k].name.Shard? ==> ShardFiles(to) !! Files(groups[k].group.nodes)) {
      forall i, j | 0 <= i < j < |upto| && upto[i].name.Shard? && upto[j].name.Shard?
        ensures Files(upto[i].group.nodes) !! Files(upto[j].group.nodes)
      {
        assert upto[i] == to[i];
        if j < k {
          assert upto[j] == to[j];
        } else {
          forall f | f in Files(to[i].group.nodes) ensures f !in Files(groups[k].group.nodes) { ShardFilesIn(to, f); }
        }
      }
    }
  }

  method ValidatePlan(serial: seq<SerialGroup>, plan: Plan) returns (ok: bool)
    requires Keyed(serial, plan.groups)
    ensures ok <==> ValidPlan(serial, plan)
  {
    hide ExpectedNames, ValidGroup, FilesApart, ShardFiles, AllSelected;
    if plan.version != 1 || (set n | n in Names(plan.groups)) != ExpectedNames(serial) { return false; }
    if plan.allNodes == [] || multiset(plan.allNodes) != multiset(AllSelected(plan.groups)) { return false; }
    if !Unique(plan.allNodes) { return false; }
    var seenFiles: set<File> := {};
    NoGroups(plan.groups);
    for k := 0 to |plan.groups|
      invariant forall i :: 0 <= i < k ==> ValidGroup(serial, plan.groups[i])
      invariant FilesApart(plan.groups[..k])
      invariant seenFiles == ShardFiles(plan.groups[..k])
    {
      var e := plan.groups[k];
      ApartStep(plan.groups, k);
      var fine := ValidateGroup(serial, e, seenFiles);
      if !fine {
        if FilesApart(plan.groups) { ApartPrefix(plan.groups, k + 1); }
        return false;
      }
      if e.name.Shard? { seenFiles := seenFiles + Files(e.group.nodes); }
    }
    assert plan.groups[..|plan.groups|] == plan.groups;
    ok := true;
  }

  // ----- what a valid plan means

  lemma {:induction false} SelectedHas(groups: seq<Entry>, x: Node)
    ensures x in multiset(AllSelected(groups)) <==> exists i :: 0 <= i < |groups| && x in groups[i].group.nodes
  {
    if groups != [] {
      var n := |groups| - 1;
      SelectedHas(groups[..n], x);
      if x in multiset(AllSelected(groups[..n])) {
        var i :| 0 <= i < n && x in groups[..n][i].group.nodes;
        assert x in groups[i].group.nodes;
      }
      if i :| 0 <= i < |groups| && x in groups[i].group.nodes {
        if i < n { assert x in groups[..n][i].group.nodes; }
      }
    }
  }

  lemma {:induction false} SelectedWithin(groups: seq<Entry>, x: Node, i: nat)
    requires i < |groups|
    ensures multiset(groups[i].group.nodes)[x] <= multiset(AllSelected(groups))[x]
    decreases |groups|
  {
    var n := |groups| - 1;
    if i < n {
      SelectedWithin(groups[..n], x, i);
      assert groups[..n][i] == groups[i];
    }
  }

  lemma {:induction false} SelectedTwice(groups: seq<Entry>, x: Node, i: nat, j: nat)
    requires i < j < |groups| && multiset(AllSelected(groups))[x] <= 1
    ensures !(x in groups[i].group.nodes && x in groups[j].group.nodes)
    decreases |groups|
  {
    var n := |groups| - 1;
    assert AllSelected(groups) == AllSelected(groups[..n]) + groups[n].group.nodes;
    if j < n {
      SelectedTwice(groups[..n], x, i, j);
      assert groups[..n][i] == groups[i] && groups[..n][j] == groups[j];
    } else {
      SelectedWithin(groups[..n], x, i);
      assert groups[..n][i] == groups[i];
      assert x in groups[n].group.nodes <==> x in multiset(groups[n].group.nodes);
      assert x in groups[i].group.nodes <==> x in multiset(groups[i].group.nodes);
    }
  }

  /** In a valid plan a shard selects exactly the files of its tests, and a file's tests are in one shard. */
  lemma ValidPlanKeepsFilesWhole(serial: seq<SerialGroup>, plan: Plan, i: nat, j: nat, n: Node, m: Node)
    requires ValidPlan(serial, plan) && i < |plan.groups| && j < |plan.groups|
    requires plan.groups[i].name.Shard? && plan.groups[j].name.Shard?
    requires n in plan.groups[i].group.nodes && m in plan.groups[j].group.nodes
    ensures forall p :: p in plan.groups[i].group.selectors <==> p in Files(plan.groups[i].group.nodes)
    ensures FileOf(n) in plan.groups[i].group.selectors && (FileOf(n) == FileOf(m) ==> i == j)
  {
    hide FileOf;
    assert ValidGroup(serial, plan.groups[i]);
    assert FileOf(n) in Files(plan.groups[i].group.nodes) && FileOf(m) in Files(plan.groups[j].group.nodes);
    assert forall p :: p in plan.groups[i].group.selectors <==> p in set q | q in plan.groups[i].group.selectors;
  }

  /** In a valid plan every collected test is selected by exactly one group, once, and nothing else is. */
  lemma ExactlyOnce(serial: seq<SerialGroup>, plan: Plan, node: Node)
    requires ValidPlan(serial, plan)
    ensures node in plan.allNodes <==> exists i :: 0 <= i < |plan.groups| && node in plan.groups[i].group.nodes
    ensures forall i, j :: (0 <= i < j < |plan.groups|) ==>
              !(node in plan.groups[i].group.nodes && node in plan.groups[j].group.nodes)
    ensures forall i :: 0 <= i < |plan.groups| ==> Unique(plan.groups[i].group.nodes)
  {
    UniqueCounts(plan.allNodes);
    SelectedHas(plan.groups, node);
    assert node in plan.allNodes <==> node in multiset(plan.allNodes);
    forall i, j | 0 <= i < j < |plan.groups|
      ensures !(node in plan.groups[i].group.nodes && node in plan.groups[j].group.nodes)
    {
      SelectedTwice(plan.groups, node, i, j);
    }
    forall i | 0 <= i < |plan.groups| ensures Unique(plan.groups[i].group.nodes) {
      forall x ensures multiset(plan.groups[i].group.nodes)[x] <= 1 { SelectedWithin(plan.groups, x, i); }
      UniqueCounts(plan.groups[i].group.nodes);
    }
  }
}
