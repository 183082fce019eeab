/** The two walks of a deployment tree report the same resources. */
module WalkAgreement {
  import opened DeploymentTree
  import opened Operations
  import opened Wrappers

  /** What identifies a reported resource: its type and name, and the deployment that listed it. */
  datatype Key = Key(resourceType: string, resourceName: string, deployment: string)

  function TimingKey(t: Timing): Key {
    Key(t.resourceType, t.resourceName, t.deployment)
  }

  function EntryKey(e: DeploymentOp): Key {
    OpKey(e.op, e.parent)
  }

  function OpKey(op: Op, deployment: string): Key {
    var target := if op.properties.Some? then op.properties.value.target else None;
    if target.None? then Key("", "", deployment)
    else Key(target.value.resourceType.GetOr(""), target.value.resourceName.GetOr(""), deployment)
  }

  /**
   Id, type and name are present, the group is present or both readings of the id find the same one,
   and the deployments type is spelled as ARM spells it.
   */
  ghost predicate Canonical(op: Op) {
    && op.properties.Some? && op.properties.value.target.Some?
    && var target := op.properties.value.target.value;
       && target.id.Some? && target.id.value != "" && target.resourceName.Some?
       && (target.resourceGroup.Some? || ParseTargetId(target.id.value).0 == RgFromResourceId(target.id.value))
       && target.resourceType.Some? && target.resourceType.value != ""
       && (EqIgnoreCase(target.resourceType.value, DEPLOYMENTS) ==> target.resourceType.value == DEPLOYMENTS)
  }

  lemma {:induction false} NothingEmpty(parts: seq<string>)
    requires forall i :: 0 <= i < |parts| ==> parts[i] != ""
    ensures NonEmpty(parts) == parts
  {
    if parts != [] {
      NothingEmpty(parts[1..]);
    }
  }

  /** An id that starts with a slash and has no empty segments is read alike by both walks, whatever its scope. */
  lemma ProperIdsReadAlike(id: string)
    requires id != "" && id[0] == '/'
    requires forall i :: 1 <= i < |Split(id)| ==> Split(id)[i] != ""
    ensures ParseTargetId(id).0 == RgFromResourceId(id)
  {
    hide Position, NonEmpty, Split;
    FirstIsEmpty(id);
    var rest := Split(id)[1..];
    forall i | 0 <= i < |rest| ensures rest[i] != "" {
      assert rest[i] == Split(id)[i + 1];
    }
    NothingEmpty(rest);
  }

  lemma FirstIsEmpty(id: string)
    requires id != "" && id[0] == '/'
    ensures NonEmpty(Split(id)) == NonEmpty(Split(id)[1..])
  {
    var parts := Split(id);
    assert parts[0] == "";
    assert [] + NonEmpty(parts[1..]) == NonEmpty(parts[1..]);
  }

  /**
   A deployment nested at subscription scope, as ARM lists it without a group field: it is canonical, and
   both walks descend to the subscription's deployment of its name.
   */
  lemma SubscriptionScopeIsCanonical(node: Node, op: Op, id: string, name: string)
    requires op.properties.Some?
    requires op.properties.value.target == Some(Target(Some(id), Some(DEPLOYMENTS), Some(name), None))
    requires id != "" && id[0] == '/' && forall i :: 1 <= i < |Split(id)| ==> Split(id)[i] != ""
    requires RgFromResourceId(id).None? && name != ""
    ensures Canonical(op)
    ensures TimingChild(node, op) == ProgressChild(node, op) == Some(Child(node, ("", name)))
  {
    hide ParseTargetId, RgFromResourceId, Durations.Parse, EqIgnoreCase, Child;
    ProperIdsReadAlike(id);
    SameSpelling();
  }

  /** Operations on one target agree on its type, name and group. */
  ghost predicate Agree(a: Op, b: Op)
    requires Canonical(a) && Canonical(b)
  {
    var s, t := a.properties.value.target.value, b.properties.value.target.value;
    s.id == t.id ==>
      s.resourceType == t.resourceType && s.resourceName == t.resourceName && s.resourceGroup == t.resourceGroup
  }

  ghost predicate WellKept(arm: Arm) {
    forall node :: node in arm ==>
      && (forall op :: op in arm[node] ==> Canonical(op))
      && (forall a, b :: a in arm[node] && b in arm[node] ==> Agree(a, b))
  }

  /** On a canonical operation the two readings coincide. */
  lemma SameReading(node: Node, op: Op)
    requires Canonical(op)
    ensures TimingChild(node, op) == ProgressChild(node, op)
    ensures |Row(op, node.deployment)| == 1 && TimingKey(Row(op, node.deployment)[0]) == OpKey(op, node.deployment)
  {
    hide ParseTargetId, RgFromResourceId, Durations.Parse, EqIgnoreCase;
    SameSpelling();
  }

  lemma SameSpelling()
    ensures EqIgnoreCase(DEPLOYMENTS, DEPLOYMENTS)
  {
  }

  /** Operations that agree make the same row key and nest the same deployment. */
  lemma AgreeingOps(node: Node, a: Op, b: Op)
    requires Canonical(a) && Canonical(b) && Agree(a, b) && IdOf(a) == IdOf(b)
    ensures OpKey(a, node.deployment) == OpKey(b, node.deployment)
    ensures ProgressChild(node, a) == ProgressChild(node, b)
  {
    hide RgFromResourceId, EqIgnoreCase;
  }

  /** Every listed operation survives as one with the same key and the same nested deployment. */
  lemma Representative(arm: Arm, node: Node, op: Op) returns (kept: Op)
    requires WellKept(arm) && node in arm && op in arm[node]
    ensures kept in DedupOps(arm[node]) && kept in arm[node]
    ensures OpKey(kept, node.deployment) == OpKey(op, node.deployment)
    ensures ProgressChild(node, kept) == ProgressChild(node, op)
  {
    hide NestedModuleTarget, DedupOps;
    DedupSubset(arm[node]);
    Survivor(arm[node], op);
    kept :| kept in DedupOps(arm[node]) && IdOf(kept) == IdOf(op);
    assert Canonical(op) && Canonical(kept) && Agree(kept, op);
    AgreeingOps(node, kept, op);
  }

  lemma Survivor(ops: seq<Op>, op: Op)
    requires op in ops && IdOf(op).Some?
    ensures exists kept :: kept in DedupOps(ops) && IdOf(kept) == IdOf(op)
  {
    FirstSeenTargets(ops);
    var id := IdOf(op).value;
    var k :| 0 <= k < |ops| && ops[k] == op;
    assert Targets(ops, id);
    var i :| 0 <= i < |FirstSeen(ops)| && FirstSeen(ops)[i] == id;
    assert DedupOps(ops)[i] in DedupOps(ops);
  }

  ghost predicate WalkHas(arm: Arm, node: Node, rank: Node -> nat, key: Key)
    requires Ranked(arm, rank)
  {
    exists t :: Walked(arm, node, rank, t) && TimingKey(t) == key
  }

  ghost predicate ProgressHas(arm: Arm, node: Node, level: nat, rank: Node -> nat, key: Key)
    requires Ranked(arm, rank)
  {
    exists e :: Reported(arm, node, level, rank, e) && EntryKey(e) == key
  }

  lemma {:induction false} WalkedIsReported(arm: Arm, node: Node, level: nat, rank: Node -> nat, t: Timing)
    requires Ranked(arm, rank) && WellKept(arm)
    requires Walked(arm, node, rank, t)
    ensures ProgressHas(arm, node, level, rank, TimingKey(t))
    decreases rank(node)
  {
    hide AzOpToTiming, NestedModuleTarget, DedupOps, Row, ProgressChild;
    hide TimingChild, OpKey, Canonical, Walked, Reported;
    WalkedBy(arm, node, rank, t);
    var op :| op in arm[node] && WalkedThrough(arm, node, rank, t, op);
    SameReading(node, op);
    var kept := Representative(arm, node, op);
    if t in Row(op, node.deployment) {
      var e := DeploymentOp(node.deployment, Depth(level), kept);
      ReportedBy(arm, node, level, rank, e);
      assert ReportedThrough(arm, node, level, rank, e, kept);
    } else {
      var c := ProgressChild(node, op).value;
      WalkedIsReported(arm, c, level + 1, rank, t);
      var e :| Reported(arm, c, level + 1, rank, e) && EntryKey(e) == TimingKey(t);
      ReportedBy(arm, node, level, rank, e);
      assert ReportedThrough(arm, node, level, rank, e, kept);
    }
  }

  lemma {:induction false} ReportedIsWalked(arm: Arm, node: Node, level: nat, rank: Node -> nat, e: DeploymentOp)
    requires Ranked(arm, rank) && WellKept(arm)
    requires Reported(arm, node, level, rank, e)
    ensures WalkHas(arm, node, rank, EntryKey(e))
    decreases rank(node)
  {
    hide AzOpToTiming, NestedModuleTarget, DedupOps, Row, ProgressChild;
    hide TimingChild, OpKey, Canonical, Walked, Reported;
    ReportedBy(arm, node, level, rank, e);
    DedupSubset(arm[node]);
    var op :| op in DedupOps(arm[node]) && ReportedThrough(arm, node, level, rank, e, op);
    assert op in arm[node];
    SameReading(node, op);
    if e == DeploymentOp(node.deployment, Depth(level), op) {
      var t := Row(op, node.deployment)[0];
      WalkedBy(arm, node, rank, t);
      assert WalkedThrough(arm, node, rank, t, op);
    } else {
      var c := ProgressChild(node, op).value;
      ReportedIsWalked(arm, c, level + 1, rank, e);
      var t :| Walked(arm, c, rank, t) && TimingKey(t) == EntryKey(e);
      WalkedBy(arm, node, rank, t);
      assert WalkedThrough(arm, node, rank, t, op);
    }
  }

  /**
   Removing duplicates before recursing or after makes no difference to what is reported: both
   walks report the same (type, name, deployment) keys, and every key has a type.
   */
  lemma WalksAgree(arm: Arm, node: Node, level: nat, rank: Node -> nat, key: Key)
    requires Ranked(arm, rank) && WellKept(arm)
    ensures WalkHas(arm, node, rank, key) <==> ProgressHas(arm, node, level, rank, key)
  {
    if WalkHas(arm, node, rank, key) {
      var t :| Walked(arm, node, rank, t) && TimingKey(t) == key;
      WalkedIsReported(arm, node, level, rank, t);
    }
    if ProgressHas(arm, node, level, rank, key) {
      var e :| Reported(arm, node, level, rank, e) && EntryKey(e) == key;
      ReportedIsWalked(arm, node, level, rank, e);
    }
  }

  // ---- Why the conditions are needed ----

  /**
   A nested deployment whose type is spelled in another case: the progress walk reports what it
   lists, the timings walk stops at its row.
   */
  lemma SpellingMatters(arm: Arm, root: Node, op: Op, child: Node, inner: Op, rank: Node -> nat)
    requires Ranked(arm, rank) && root in arm && arm[root] == [op] && child in arm && arm[child] == [inner]
    requires ProgressChild(root, op) == Some(child) && IdOf(op).Some? && IdOf(inner).Some?
    requires op.properties.value.target.value.resourceType.value != DEPLOYMENTS
    ensures ProgressHas(arm, root, 0, rank, OpKey(inner, child.deployment))
    ensures forall t :: Walked(arm, root, rank, t) ==> t in Row(op, root.deployment)
    ensures child.deployment != root.deployment ==> !WalkHas(arm, root, rank, OpKey(inner, child.deployment))
  {
    hide ParseTargetId, RgFromResourceId, Durations.Parse;
    assert op.properties.value.target.value.resourceType.Some? by {
      assert !EqIgnoreCase("", DEPLOYMENTS);
    }
    var e := DeploymentOp(child.deployment, Depth(1), inner);
    OnlyOp(inner);
    ReportedBy(arm, child, 1, rank, e);
    assert ReportedThrough(arm, child, 1, rank, e, inner);
    OnlyOp(op);
    ReportedBy(arm, root, 0, rank, e);
    assert ReportedThrough(arm, root, 0, rank, e, op);
    assert TimingChild(root, op).None?;
    forall t | Walked(arm, root, rank, t) ensures t in Row(op, root.deployment) {
      WalkedBy(arm, root, rank, t);
      var o :| o in arm[root] && WalkedThrough(arm, root, rank, t, o);
      assert o == op;
    }
  }

  lemma OnlyOp(op: Op)
    requires IdOf(op).Some?
    ensures DedupOps([op]) == [op]
  {
    hide IdOf;
    assert [op][..0] == [];
    assert FirstSeen([op]) == [IdOf(op).value];
  }

  /** An operation without a target id: the timings walk collects its row, the progress walk drops it. */
  lemma IdMatters(arm: Arm, root: Node, op: Op, rank: Node -> nat)
    requires Ranked(arm, rank) && root in arm && arm[root] == [op]
    requires op.properties.Some? && IdOf(op).None?
    ensures forall e :: !Reported(arm, root, 0, rank, e)
    ensures exists t :: Walked(arm, root, rank, t)
  {
    hide ParseTargetId, RgFromResourceId, Durations.Parse, EqIgnoreCase;
    assert [op][..0] == [];
    assert FirstSeen([op]) == [];
    assert DedupOps(arm[root]) == [];
    forall e ensures !Reported(arm, root, 0, rank, e) {
      ReportedBy(arm, root, 0, rank, e);
    }
    var t := Row(op, root.deployment)[0];
    WalkedBy(arm, root, rank, t);
    assert WalkedThrough(arm, root, rank, t, op);
  }
}
