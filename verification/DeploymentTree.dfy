/**
 The two walks over a nested deployment tree. The progress walk removes duplicate operations
 before it recurses and reports as it goes; the timings walk recurses into every operation and
 leaves duplicates to be removed from its result.
 */
module DeploymentTree {
  import opened Operations
  import opened Wrappers

  newtype u8 = x: int | 0 <= x < 256

  datatype Scope = Subscription | Group(name: string)

  datatype Node = Node(scope: Scope, deployment: string)

  /** Operations of each deployment; listing any other deployment fails. */
  type Arm = map<Node, seq<Op>>

  /** A nested deployment found in `node`: inside a group everything stays in that group. */
  function Child(node: Node, nested: (string, string)): Node {
    match node.scope
    case Subscription => Node(if nested.0 == "" then Subscription else Group(nested.0), nested.1)
    case Group(g) => Node(Group(g), nested.1)
  }

  function TimingChild(node: Node, op: Op): Option<Node> {
    match AzOpToTiming(op, node.deployment)
    case None => None
    case Some((_, nested)) => if nested.Some? then Some(Child(node, nested.value)) else None
  }

  function ProgressChild(node: Node, op: Op): Option<Node> {
    match NestedModuleTarget(op)
    case None => None
    case Some(nested) => Some(Child(node, nested))
  }

  /** Nesting is finite: a nested deployment, as either walk sees it, has a smaller rank than its parent. */
  ghost predicate Ranked(arm: Arm, rank: Node -> nat) {
    forall node, op :: node in arm && op in arm[node] ==>
      && (TimingChild(node, op).Some? ==> rank(TimingChild(node, op).value) < rank(node))
      && (ProgressChild(node, op).Some? ==> rank(ProgressChild(node, op).value) < rank(node))
  }

  // ---- The progress walk ----

  /** An operation, the deployment that listed it, and the operations of the deployment it nests. */
  datatype Tree = Tree(lister: string, op: Op, children: seq<Tree>)

  lemma DedupSubset(ops: seq<Op>)
    ensures forall op :: op in DedupOps(ops) ==> op in ops
  {
  }

  /** The deduplicated tree below a deployment. */
  ghost function Forest(arm: Arm, node: Node, rank: Node -> nat): (f: seq<Tree>)
    requires Ranked(arm, rank)
    ensures node !in arm ==> f == []
    ensures node in arm ==> |f| == |DedupOps(arm[node])|
    decreases rank(node), 1
  {
    if node !in arm then []
    else
      DedupSubset(arm[node]);
      var ops := DedupOps(arm[node]);
      seq(|ops|, i requires 0 <= i < |ops| => TreeOf(arm, node, ops[i], rank))
  }

  ghost function TreeOf(arm: Arm, node: Node, op: Op, rank: Node -> nat): Tree
    requires Ranked(arm, rank) && node in arm && op in arm[node]
    decreases rank(node), 0
  {
    var child := ProgressChild(node, op);
    Tree(node.deployment, op,
         if child.Some? then Forest(arm, child.value, rank) else [])
  }

  datatype DeploymentOp = DeploymentOp(parent: string, depth: u8, op: Op)

  function Depth(level: nat): u8 {
    if level <= 255 then level as u8 else 255
  }

  /** Pre-order: every tree before its children, children before the next tree. */
  function Flatten(forest: seq<Tree>, level: nat): seq<DeploymentOp> {
    if forest == [] then []
    else
      [DeploymentOp(forest[0].lister, Depth(level), forest[0].op)]
        + Flatten(forest[0].children, level + 1) + Flatten(forest[1..], level)
  }

  lemma {:induction false} FlattenConcat(f: seq<Tree>, g: seq<Tree>, level: nat)
    ensures Flatten(f + g, level) == Flatten(f, level) + Flatten(g, level)
  {
    if f == [] {
      assert f + g == g;
    } else {
      assert (f + g)[1..] == f[1..] + g;
      FlattenConcat(f[1..], g, level);
    }
  }

  lemma FlattenOne(t: Tree, level: nat)
    ensures Flatten([t], level) == [DeploymentOp(t.lister, Depth(level), t.op)] + Flatten(t.children, level + 1)
  {
    assert [t][1..] == [];
  }

  lemma FlattenStep(f: seq<Tree>, i: nat, level: nat)
    requires i < |f|
    ensures Flatten(f[..i + 1], level) == Flatten(f[..i], level) + Flatten([f[i]], level)
  {
    assert f[..i + 1] == f[..i] + [f[i]];
    FlattenConcat(f[..i], [f[i]], level);
  }

  /** The vector the progress walk appends to. */
  class OpLog {
    var ops: seq<DeploymentOp>

    constructor ()
      ensures ops == []
    {
      ops := [];
    }

    method Push(op: DeploymentOp)
      modifies this
      ensures ops == old(ops) + [op]
    {
      ops := ops + [op];
    }
  }

  function SaturatingAdd(depth: u8): u8 {
    if depth == 255 then 255 else depth + 1
  }

  method CollectSubOpsInto(arm: Arm, out: OpLog, deployment: string, depth: u8, ghost level: nat,
                           ghost rank: Node -> nat)
    requires Ranked(arm, rank) && depth == Depth(level)
    modifies out
    ensures out.ops == old(out.ops) + Flatten(Forest(arm, Node(Subscription, deployment), rank), level)
    decreases rank(Node(Subscription, deployment)), 1
  {
    hide AzOpToTiming, NestedModuleTarget, Flatten, TreeOf;
    FlattenNone(level);
    var node := Node(Subscription, deployment);
    if node !in arm {
      return;
    }
    var ops := DedupOpsByTarget(arm[node]);
    DedupSubset(arm[node]);
    ghost var forest := Forest(arm, node, rank);
    for i := 0 to |ops|
      invariant out.ops == old(out.ops) + Flatten(forest[..i], level)
    {
      FlattenStep(forest, i, level);
      assert ops[i] in arm[node] && forest[i] == TreeOf(arm, node, ops[i], rank);
      VisitSubOp(arm, out, deployment, ops[i], depth, level, rank);
    }
    assert forest[..|ops|] == forest;
  }

  lemma FlattenNone(level: nat)
    ensures Flatten([], level) == []
  {
  }

  /** One turn of the loop above: report the operation, then what it nests. */
  method VisitSubOp(arm: Arm, out: OpLog, deployment: string, op: Op, depth: u8, ghost level: nat,
                    ghost rank: Node -> nat)
    requires Ranked(arm, rank) && depth == Depth(level)
    requires Node(Subscription, deployment) in arm && op in arm[Node(Subscription, deployment)]
    modifies out
    ensures out.ops == old(out.ops) + Flatten([TreeOf(arm, Node(Subscription, deployment), op, rank)], level)
    decreases rank(Node(Subscription, deployment)), 0
  {
    hide AzOpToTiming, NestedModuleTarget, Flatten;
    FlattenNone(level + 1);
    FlattenOne(TreeOf(arm, Node(Subscription, deployment), op, rank), level);
    var nested := NestedModuleTarget(op);
    out.Push(DeploymentOp(deployment, depth, op));
    if nested.Some? {
      var (rg, name) := nested.value;
      if rg == "" {
        CollectSubOpsInto(arm, out, name, SaturatingAdd(depth), level + 1, rank);
      } else {
        CollectGroupOpsInto(arm, out, rg, name, SaturatingAdd(depth), level + 1, rank);
      }
    }
  }

  method CollectGroupOpsInto(arm: Arm, out: OpLog, rg: string, deployment: string, depth: u8, ghost level: nat,
                             ghost rank: Node -> nat)
    requires Ranked(arm, rank) && depth == Depth(level)
    modifies out
    ensures out.ops == old(out.ops) + Flatten(Forest(arm, Node(Group(rg), deployment), rank), level)
    decreases rank(Node(Group(rg), deployment)), 1
  {
    hide AzOpToTiming, NestedModuleTarget, Flatten, TreeOf;
    FlattenNone(level);
    var node := Node(Group(rg), deployment);
    if node !in arm {
      return;
    }
    var ops := DedupOpsByTarget(arm[node]);
    DedupSubset(arm[node]);
    ghost var forest := Forest(arm, node, rank);
    for i := 0 to |ops|
      invariant out.ops == old(out.ops) + Flatten(forest[..i], level)
    {
      FlattenStep(forest, i, level);
      assert ops[i] in arm[node] && forest[i] == TreeOf(arm, node, ops[i], rank);
      VisitGroupOp(arm, out, rg, deployment, ops[i], depth, level, rank);
    }
    assert forest[..|ops|] == forest;
  }

  method VisitGroupOp(arm: Arm, out: OpLog, rg: string, deployment: string, op: Op, depth: u8, ghost level: nat,
                      ghost rank: Node -> nat)
    requires Ranked(arm, rank) && depth == Depth(level)
    requires Node(Group(rg), deployment) in arm && op in arm[Node(Group(rg), deployment)]
    modifies out
    ensures out.ops == old(out.ops) + Flatten([TreeOf(arm, Node(Group(rg), deployment), op, rank)], level)
    decreases rank(Node(Group(rg), deployment)), 0
  {
    hide AzOpToTiming, NestedModuleTarget, Flatten;
    FlattenNone(level + 1);
    FlattenOne(TreeOf(arm, Node(Group(rg), deployment), op, rank), level);
    var nested := NestedModuleTarget(op);
    out.Push(DeploymentOp(deployment, depth, op));
    if nested.Some? {
      CollectGroupOpsInto(arm, out, rg, nested.value.1, SaturatingAdd(depth), level + 1, rank);
    }
  }

  method ListDeploymentOperationsRecursive(arm: Arm, deployment: string, ghost rank: Node -> nat)
    returns (r: seq<DeploymentOp>)
    requires Ranked(arm, rank)
    ensures r == Flatten(Forest(arm, Node(Subscription, deployment), rank), 0)
  {
    var out := new OpLog();
    CollectSubOpsInto(arm, out, deployment, 0, 0, rank);
    r := out.ops;
  }

  // ---- What the progress walk reports ----

  ghost predicate Reported(arm: Arm, node: Node, level: nat, rank: Node -> nat, e: DeploymentOp)
    requires Ranked(arm, rank)
  {
    e in Flatten(Forest(arm, node, rank), level)
  }

  lemma {:induction false} InFlatten(forest: seq<Tree>, level: nat, e: DeploymentOp)
    ensures e in Flatten(forest, level) <==>
            exists i :: 0 <= i < |forest| && e in Flatten([forest[i]], level)
  {
    if forest != [] {
      assert forest == [forest[0]] + forest[1..];
      FlattenConcat([forest[0]], forest[1..], level);
      InFlatten(forest[1..], level, e);
      assert forall i :: 0 < i < |forest| ==> forest[i] == forest[1..][i - 1];
    }
  }

  /** The entry an operation itself makes, or any entry of the deployment it nests. */
  ghost predicate ReportedThrough(arm: Arm, node: Node, level: nat, rank: Node -> nat, e: DeploymentOp, op: Op)
    requires Ranked(arm, rank)
  {
    || e == DeploymentOp(node.deployment, Depth(level), op)
    || (ProgressChild(node, op).Some? && Reported(arm, ProgressChild(node, op).value, level + 1, rank, e))
  }

  lemma ReportedBy(arm: Arm, node: Node, level: nat, rank: Node -> nat, e: DeploymentOp)
    requires Ranked(arm, rank)
    ensures Reported(arm, node, level, rank, e) <==>
            node in arm && exists op :: op in DedupOps(arm[node]) && ReportedThrough(arm, node, level, rank, e, op)
  {
    hide AzOpToTiming, NestedModuleTarget, DedupOps;
    if node in arm {
      var forest, ops := Forest(arm, node, rank), DedupOps(arm[node]);
      DedupSubset(arm[node]);
      InFlatten(forest, level, e);
      forall i | 0 <= i < |forest|
        ensures e in Flatten([forest[i]], level) <==> ReportedThrough(arm, node, level, rank, e, ops[i])
      {
        assert ops[i] in arm[node];
        TreeReports(arm, node, ops[i], level, rank, e);
      }
      if exists op :: op in ops && ReportedThrough(arm, node, level, rank, e, op) {
        var op :| op in ops && ReportedThrough(arm, node, level, rank, e, op);
        var i :| 0 <= i < |ops| && ops[i] == op;
        assert e in Flatten([forest[i]], level);
      }
    }
  }

  lemma TreeReports(arm: Arm, node: Node, op: Op, level: nat, rank: Node -> nat, e: DeploymentOp)
    requires Ranked(arm, rank) && node in arm && op in arm[node]
    ensures e in Flatten([TreeOf(arm, node, op, rank)], level) <==> ReportedThrough(arm, node, level, rank, e, op)
  {
    hide AzOpToTiming, NestedModuleTarget;
    FlattenOne(TreeOf(arm, node, op, rank), level);
  }

  /** `node` leads to `target` through `steps` nested deployments. */
  ghost predicate Nests(arm: Arm, node: Node, target: Node, steps: nat)
    decreases steps, 1
  {
    if steps == 0 then node == target
    else node in arm && exists op :: op in DedupOps(arm[node]) && NestsThrough(arm, node, op, target, steps)
  }

  ghost predicate NestsThrough(arm: Arm, node: Node, op: Op, target: Node, steps: nat)
    requires 0 < steps
    decreases steps, 0
  {
    ProgressChild(node, op).Some? && Nests(arm, ProgressChild(node, op).value, target, steps - 1)
  }

  /** What an entry says about itself: who listed it, and how deep that deployment is nested. */
  ghost predicate ListedAt(arm: Arm, node: Node, level: nat, e: DeploymentOp, lister: Node, steps: nat) {
    && Nests(arm, node, lister, steps)
    && lister in arm && e.op in DedupOps(arm[lister])
    && e.parent == lister.deployment && e.depth == Depth(level + steps)
  }

  ghost predicate Listed(arm: Arm, node: Node, level: nat, e: DeploymentOp) {
    exists lister, steps: nat :: ListedAt(arm, node, level, e, lister, steps)
  }

  /**
   The progress walk reports exactly the deduplicated operations of the deployments nested in the
   root, each with the deployment that listed it and its nesting level, capped at 255.
   */
  lemma {:induction false} ReportsExactlyTheTree(arm: Arm, node: Node, level: nat, rank: Node -> nat, e: DeploymentOp)
    requires Ranked(arm, rank)
    ensures Reported(arm, node, level, rank, e) <==> Listed(arm, node, level, e)
    decreases rank(node)
  {
    hide AzOpToTiming, NestedModuleTarget, DedupOps, Reported;
    ReportedBy(arm, node, level, rank, e);
    if node in arm {
      DedupSubset(arm[node]);
      forall op | op in DedupOps(arm[node]) && ProgressChild(node, op).Some?
        ensures Reported(arm, ProgressChild(node, op).value, level + 1, rank, e) <==>
                Listed(arm, ProgressChild(node, op).value, level + 1, e)
      {
        assert op in arm[node];
        ReportsExactlyTheTree(arm, ProgressChild(node, op).value, level + 1, rank, e);
      }
    }
    if Reported(arm, node, level, rank, e) {
      var op :| op in DedupOps(arm[node]) && ReportedThrough(arm, node, level, rank, e, op);
      if e == DeploymentOp(node.deployment, Depth(level), op) {
        assert ListedAt(arm, node, level, e, node, 0);
      } else {
        var c := ProgressChild(node, op).value;
        var lister, steps: nat :| ListedAt(arm, c, level + 1, e, lister, steps);
        assert NestsThrough(arm, node, op, lister, steps + 1);
        assert ListedAt(arm, node, level, e, lister, steps + 1);
      }
    }
    if Listed(arm, node, level, e) {
      var lister, steps: nat :| ListedAt(arm, node, level, e, lister, steps);
      if steps == 0 {
        assert ReportedThrough(arm, node, level, rank, e, e.op);
      } else {
        var op :| op in DedupOps(arm[node]) && NestsThrough(arm, node, op, lister, steps);
        assert ListedAt(arm, ProgressChild(node, op).value, level + 1, e, lister, steps - 1);
        assert ReportedThrough(arm, node, level, rank, e, op);
      }
    }
  }

  // ---- The timings walk ----

  function Row(op: Op, deployment: string): seq<Timing> {
    match AzOpToTiming(op, deployment)
    case None => []
    case Some((timing, _)) => [timing]
  }

  function NestedIn(op: Op, deployment: string): seq<(string, string)> {
    match AzOpToTiming(op, deployment)
    case None => []
    case Some((_, nested)) => if nested.Some? then [nested.value] else []
  }

  function Rows(ops: seq<Op>, deployment: string): seq<Timing> {
    if ops == [] then [] else Rows(ops[..|ops| - 1], deployment) + Row(ops[|ops| - 1], deployment)
  }

  function AllNested(ops: seq<Op>, deployment: string): seq<(string, string)> {
    if ops == [] then [] else AllNested(ops[..|ops| - 1], deployment) + NestedIn(ops[|ops| - 1], deployment)
  }

  lemma {:induction false} InRows(ops: seq<Op>, deployment: string)
    ensures forall t :: t in Rows(ops, deployment) <==> exists op :: op in ops && t in Row(op, deployment)
    ensures forall n :: n in AllNested(ops, deployment) <==> exists op :: op in ops && n in NestedIn(op, deployment)
  {
    hide AzOpToTiming;
    if ops != [] {
      InRows(ops[..|ops| - 1], deployment);
      assert forall op :: op in ops <==> op in ops[..|ops| - 1] || op == ops[|ops| - 1];
    }
  }

  ghost predicate Descends(node: Node, nested: seq<(string, string)>, rank: Node -> nat) {
    forall n :: n in nested ==> rank(Child(node, n)) < rank(node)
  }

  lemma RankedDescends(arm: Arm, node: Node, rank: Node -> nat)
    requires Ranked(arm, rank) && node in arm
    ensures Descends(node, AllNested(arm[node], node.deployment), rank)
  {
    hide AzOpToTiming, NestedModuleTarget;
    InRows(arm[node], node.deployment);
    forall n | n in AllNested(arm[node], node.deployment) ensures rank(Child(node, n)) < rank(node) {
      var op :| op in arm[node] && n in NestedIn(op, node.deployment);
      assert TimingChild(node, op) == Some(Child(node, n));
    }
  }

  /** Rows of a deployment, then of everything it nests; what cannot be listed adds nothing. */
  ghost function Walk(arm: Arm, node: Node, rank: Node -> nat): seq<Timing>
    requires Ranked(arm, rank)
    decreases rank(node), 1, 0
  {
    if node !in arm then []
    else
      RankedDescends(arm, node, rank);
      var nested := AllNested(arm[node], node.deployment);
      Rows(arm[node], node.deployment) + WalkAll(arm, node, nested, rank)
  }

  ghost function WalkAll(arm: Arm, node: Node, nested: seq<(string, string)>, rank: Node -> nat): seq<Timing>
    requires Ranked(arm, rank) && Descends(node, nested, rank)
    decreases rank(node), 0, |nested|
  {
    if nested == [] then []
    else
      var last := nested[|nested| - 1];
      assert last in nested;
      assert forall n :: n in nested[..|nested| - 1] ==> n in nested;
      WalkAll(arm, node, nested[..|nested| - 1], rank) + Walk(arm, Child(node, last), rank)
  }

  lemma WalkAllNone(arm: Arm, node: Node, rank: Node -> nat)
    requires Ranked(arm, rank)
    ensures Descends(node, [], rank) && WalkAll(arm, node, [], rank) == []
  {
  }

  lemma WalkAllStep(arm: Arm, node: Node, nested: seq<(string, string)>, i: nat, rank: Node -> nat)
    requires Ranked(arm, rank) && Descends(node, nested, rank) && i < |nested|
    ensures Descends(node, nested[..i], rank) && Descends(node, nested[..i + 1], rank)
    ensures WalkAll(arm, node, nested[..i + 1], rank)
         == WalkAll(arm, node, nested[..i], rank) + Walk(arm, Child(node, nested[i]), rank)
  {
    hide AzOpToTiming, NestedModuleTarget, Walk;
    assert nested[..i + 1][..i] == nested[..i];
    assert nested[i] in nested;
  }

  method CollectSubOperations(arm: Arm, deployment: string, ghost rank: Node -> nat) returns (r: Option<seq<Timing>>)
    requires Ranked(arm, rank)
    ensures var node := Node(Subscription, deployment);
            r == if node in arm then Some(Walk(arm, node, rank)) else None
    decreases rank(Node(Subscription, deployment))
  {
    hide AzOpToTiming, NestedModuleTarget, WalkAll, AllNested, Rows, Ranked;
    var node := Node(Subscription, deployment);
    if node !in arm {
      return None;
    }
    var out, nestedModules := RowsOf(arm[node], deployment);
    RankedDescends(arm, node, rank);
    ghost var rows := out;
    WalkAllNone(arm, node, rank);
    assert nestedModules[..0] == [];
    for i := 0 to |nestedModules|
      invariant Descends(node, nestedModules[..i], rank)
      invariant out == rows + WalkAll(arm, node, nestedModules[..i], rank)
    {
      var (rg, moduleName) := nestedModules[i];
      WalkAllStep(arm, node, nestedModules, i, rank);
      assert nestedModules[i] in nestedModules;
      var child;
      if rg == "" {
        child := CollectSubOperations(arm, moduleName, rank);
      } else {
        child := CollectGroupOperations(arm, rg, moduleName, rank);
      }
      if child.Some? {
        out := out + child.value;
      }
    }
    assert nestedModules[..|nestedModules|] == nestedModules;
    return Some(out);
  }

  method CollectGroupOperations(arm: Arm, rg: string, moduleName: string, ghost rank: Node -> nat)
    returns (r: Option<seq<Timing>>)
    requires Ranked(arm, rank)
    ensures var node := Node(Group(rg), moduleName);
            r == if node in arm then Some(Walk(arm, node, rank)) else None
    decreases rank(Node(Group(rg), moduleName))
  {
    hide AzOpToTiming, NestedModuleTarget, WalkAll, AllNested, Rows, Ranked;
    var node := Node(Group(rg), moduleName);
    if node !in arm {
      return None;
    }
    var out, nested := RowsOf(arm[node], moduleName);
    RankedDescends(arm, node, rank);
    ghost var rows := out;
    WalkAllNone(arm, node, rank);
    assert nested[..0] == [];
    for i := 0 to |nested|
      invariant Descends(node, nested[..i], rank)
      invariant out == rows + WalkAll(arm, node, nested[..i], rank)
    {
      WalkAllStep(arm, node, nested, i, rank);
      assert nested[i] in nested;
      var child := CollectGroupOperations(arm, rg, nested[i].1, rank);
      if child.Some? {
        out := out + child.value;
      }
    }
    assert nested[..|nested|] == nested;
    return Some(out);
  }

  /** The first loop of both walkers: rows and nested deployments, duplicates and all. */
  method RowsOf(ops: seq<Op>, deployment: string) returns (out: seq<Timing>, nested: seq<(string, string)>)
    ensures out == Rows(ops, deployment) && nested == AllNested(ops, deployment)
  {
    hide AzOpToTiming;
    out, nested := [], [];
    for i := 0 to |ops|
      invariant out == Rows(ops[..i], deployment) && nested == AllNested(ops[..i], deployment)
    {
      assert ops[..i + 1][..i] == ops[..i];
      var row := AzOpToTiming(ops[i], deployment);
      if row.Some? {
        var (timing, child) := row.value;
        if child.Some? {
          nested := nested + [child.value];
        }
        out := out + [timing];
      }
    }
    assert ops[..|ops|] == ops;
  }

  // ---- What the timings walk collects ----

  ghost predicate Walked(arm: Arm, node: Node, rank: Node -> nat, t: Timing)
    requires Ranked(arm, rank)
  {
    t in Walk(arm, node, rank)
  }

  ghost predicate WalkedThrough(arm: Arm, node: Node, rank: Node -> nat, t: Timing, op: Op)
    requires Ranked(arm, rank)
  {
    || t in Row(op, node.deployment)
    || (TimingChild(node, op).Some? && Walked(arm, TimingChild(node, op).value, rank, t))
  }

  lemma {:induction false} InWalkAll(arm: Arm, node: Node, nested: seq<(string, string)>, rank: Node -> nat, t: Timing)
    requires Ranked(arm, rank) && Descends(node, nested, rank)
    ensures t in WalkAll(arm, node, nested, rank) <==> exists n :: n in nested && Walked(arm, Child(node, n), rank, t)
    decreases |nested|
  {
    hide AzOpToTiming, NestedModuleTarget;
    if nested != [] {
      var rest, last := nested[..|nested| - 1], nested[|nested| - 1];
      assert forall n :: n in nested <==> n in rest || n == last;
      InWalkAll(arm, node, rest, rank, t);
    }
  }

  lemma WalkedBy(arm: Arm, node: Node, rank: Node -> nat, t: Timing)
    requires Ranked(arm, rank)
    ensures Walked(arm, node, rank, t) <==>
            node in arm && exists op :: op in arm[node] && WalkedThrough(arm, node, rank, t, op)
  {
    hide AzOpToTiming, NestedModuleTarget, Rows, AllNested;
    if node in arm {
      var nested := AllNested(arm[node], node.deployment);
      RankedDescends(arm, node, rank);
      InRows(arm[node], node.deployment);
      InWalkAll(arm, node, nested, rank, t);
      if n :| n in nested && Walked(arm, Child(node, n), rank, t) {
        var op :| op in arm[node] && n in NestedIn(op, node.deployment);
        assert TimingChild(node, op) == Some(Child(node, n));
        assert WalkedThrough(arm, node, rank, t, op);
      }
      if op :| op in arm[node] && TimingChild(node, op).Some? && Walked(arm, TimingChild(node, op).value, rank, t) {
        var n := NestedIn(op, node.deployment)[0];
        assert n in nested && TimingChild(node, op) == Some(Child(node, n));
      }
      if op :| op in arm[node] && t in Row(op, node.deployment) {
        assert WalkedThrough(arm, node, rank, t, op);
      }
    }
  }
}
