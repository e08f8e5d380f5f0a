/**
 The release gate of scripts/windows_test_shards.py: every group's receipt must show that the
 planned tests, and only those, finished.
 */
module WindowsResults {
  import opened Outcomes
  import opened Collections
  import opened WindowsShards

  /** What a group's run left behind; the plan stands for its digest. */
  datatype Receipt = Receipt(group: GroupName, plan: Plan, exitCode: int, expected: seq<Node>,
                             workers: int, byFile: bool, finished: seq<Node>)

  predicate Complete(plan: Plan, e: Entry, r: Receipt) {
    && r.group == e.name && r.plan == plan && r.exitCode == 0 && r.expected == e.group.nodes
    && r.workers == (if e.name.Shard? then 2 else 0)
    && (e.name.Shard? ==> r.byFile)
    && multiset(r.finished) == multiset(e.group.nodes)
  }

  predicate Receipted(plan: Plan, receipts: map<GroupName, Receipt>, e: Entry) {
    e.name in receipts && Complete(plan, e, receipts[e.name])
  }

  lemma CompleteFinishes(plan: Plan, e: Entry, r: Receipt)
    requires Complete(plan, e, r)
    ensures multiset(r.finished) == multiset(e.group.nodes)
  {
  }

  lemma ValidSelects(serial: seq<SerialGroup>, plan: Plan)
    requires ValidPlan(serial, plan)
    ensures multiset(AllSelected(plan.groups)) == multiset(plan.allNodes)
  {
  }

  /**
   All tests that finished, or None where the plan or a receipt is refused. The closing count of
   all finished tests never refuses what the receipts of a valid plan have passed.
   */
  method VerifyResults(serial: seq<SerialGroup>, plan: Plan, receipts: map<GroupName, Receipt>)
    returns (done: Option<seq<Node>>)
    requires Keyed(serial, plan.groups)
    ensures done.Some? <==>
              && ValidPlan(serial, plan)
              && forall i :: 0 <= i < |plan.groups| ==> Receipted(plan, receipts, plan.groups[i])
    ensures done.Some? ==> multiset(done.value) == multiset(plan.allNodes)
  {
    hide ValidPlan, Complete;
    var valid := ValidatePlan(serial, plan);
    if !valid { return None; }
    var finished: seq<Node> := [];
    for k := 0 to |plan.groups|
      invariant forall i :: 0 <= i < k ==> Receipted(plan, receipts, plan.groups[i])
      invariant multiset(finished) == multiset(AllSelected(plan.groups[..k]))
    {
      var e := plan.groups[k];
      if e.name !in receipts || !Complete(plan, e, receipts[e.name]) {
        assert !Receipted(plan, receipts, plan.groups[k]);
        return None;
      }
      CompleteFinishes(plan, e, receipts[e.name]);
      assert plan.groups[..k + 1][..k] == plan.groups[..k];
      finished := finished + receipts[e.name].finished;
    }
    assert plan.groups[..|plan.groups|] == plan.groups;
    ValidSelects(serial, plan);
    if multiset(finished) != multiset(plan.allNodes) { return None; }
    done := Some(finished);
  }

  predicate FinishedIn(plan: Plan, receipts: map<GroupName, Receipt>, i: nat, node: Node)
    requires i < |plan.groups|
  {
    plan.groups[i].name in receipts && node in receipts[plan.groups[i].name].finished
  }

  /** Where the gate opens, every collected test finished in its own group's run, once, and in no other. */
  lemma FinishedOnce(serial: seq<SerialGroup>, plan: Plan, receipts: map<GroupName, Receipt>, node: Node)
    requires ValidPlan(serial, plan) && forall i :: 0 <= i < |plan.groups| ==> Receipted(plan, receipts, plan.groups[i])
    requires node in plan.allNodes
    ensures exists i :: 0 <= i < |plan.groups| && FinishedIn(plan, receipts, i, node)
    ensures forall i, j :: 0 <= i < j < |plan.groups| ==>
              !(FinishedIn(plan, receipts, i, node) && FinishedIn(plan, receipts, j, node))
    ensures forall i :: 0 <= i < |plan.groups| ==>
              plan.groups[i].name in receipts && Unique(receipts[plan.groups[i].name].finished)
  {
    hide ValidPlan;
    ExactlyOnce(serial, plan, node);
    forall i | 0 <= i < |plan.groups|
      ensures FinishedIn(plan, receipts, i, node) <==> node in plan.groups[i].group.nodes
      ensures Unique(receipts[plan.groups[i].name].finished)
    {
      assert Receipted(plan, receipts, plan.groups[i]);
      SameMultiset(receipts[plan.groups[i].name].finished, plan.groups[i].group.nodes);
    }
    hide FinishedIn, Receipted;
    var i :| 0 <= i < |plan.groups| && node in plan.groups[i].group.nodes;
    assert FinishedIn(plan, receipts, i, node);
  }
}
