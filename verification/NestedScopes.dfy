/**
 Where nested deployments are listed, and what each listed operation makes of the report, told by the
 operations' own fields and ids.
 */
module NestedScopes {
  import opened DeploymentTree
  import opened Durations
  import opened Operations
  import opened Strings
  import opened TimingReport
  import opened WalkAgreement
  import opened Wrappers

  // ---- Ids ----

  function Joined(segments: seq<string>): string {
    if segments == [] then "" else ['/'] + segments[0] + Joined(segments[1..])
  }

  predicate Segments(segments: seq<string>) {
    forall i :: 0 <= i < |segments| ==> segments[i] != "" && '/' !in segments[i]
  }

  lemma {:induction false} SplitSegment(segment: string, rest: string)
    requires '/' !in segment && (rest == "" || rest[0] == '/')
    ensures Split(segment + rest) == [segment] + Split(rest)[1..]
  {
    if segment == "" {
      assert segment + rest == rest;
      assert Split(rest)[0] == "";
    } else {
      SplitSegment(segment[1..], rest);
      assert (segment + rest)[1..] == segment[1..] + rest;
      assert [segment[0]] + segment[1..] == segment;
    }
  }

  lemma SplitNothing()
    ensures Split("") == [""]
  {
  }

  lemma SplitSlash(rest: string)
    ensures Split(['/'] + rest) == [""] + Split(rest)
  {
    assert (['/'] + rest)[1..] == rest;
  }

  lemma FirstSegment(segments: seq<string>)
    requires Segments(segments) && segments != []
    ensures '/' !in segments[0] && Segments(segments[1..])
    ensures Joined(segments) == ['/'] + (segments[0] + Joined(segments[1..]))
    ensures Joined(segments[1..]) == "" || Joined(segments[1..])[0] == '/'
  {
  }

  /** An id splits into the segments it was joined from, behind an empty one. */
  lemma {:induction false} SplitJoined(segments: seq<string>)
    requires Segments(segments)
    ensures Split(Joined(segments)) == [""] + segments
  {
    if segments == [] {
      SplitNothing();
      assert [""] + segments == [""];
    } else {
      hide Split, Joined, Segments;
      FirstSegment(segments);
      var rest := Joined(segments[1..]);
      SplitJoined(segments[1..]);
      SplitSegment(segments[0], rest);
      SplitSlash(segments[0] + rest);
      assert Split(rest)[1..] == segments[1..];
      assert segments == [segments[0]] + segments[1..];
    }
  }

  lemma IgnoresCaseOnly(a: string, b: string)
    ensures EqIgnoreCase(a, b) <==> SameButCase(a, b)
  {
  }

  lemma PositionIsFirst(parts: seq<string>, word: string)
    ensures forall j :: 0 <= j < Position(parts, word) ==> !SameButCase(parts[j], word)
    ensures Position(parts, word) < |parts| ==> SameButCase(parts[Position(parts, word)], word)
  {
    hide EqIgnoreCase, SameButCase;
    if parts != [] {
      IgnoresCaseOnly(parts[0], word);
      PositionIsFirst(parts[1..], word);
    }
  }

  /** The first segment that is `word`, in any case. */
  ghost predicate FirstAt(segments: seq<string>, word: string, k: int) {
    0 <= k < |segments| && SameButCase(segments[k], word) && forall j :: 0 <= j < k ==> !SameButCase(segments[j], word)
  }

  /** The group an id is in is its segment behind the first `resourceGroups`; "" for an id in none. */
  ghost predicate InGroup(segments: seq<string>, group: string) {
    if group == "" then forall k :: FirstAt(segments, "resourceGroups", k) ==> k == |segments| - 1
    else exists k :: FirstAt(segments, "resourceGroups", k) && k + 1 < |segments| && segments[k + 1] == group
  }

  /** Both walks read the group from an id. */
  lemma IdReads(segments: seq<string>, group: string)
    requires Segments(segments) && InGroup(segments, group)
    ensures var id := Joined(segments);
            RgFromResourceId(id) == ParseTargetId(id).0 == if group == "" then None else Some(group)
  {
    hide SameButCase, EqIgnoreCase;
    var id := Joined(segments);
    SplitJoined(segments);
    assert Split(id)[1..] == segments;
    FirstEmpty(segments);
    PositionIsFirst(segments, "resourceGroups");
    var g := Position(segments, "resourceGroups");
    if g < |segments| {
      assert FirstAt(segments, "resourceGroups", g);
    }
    if group != "" {
      var k :| FirstAt(segments, "resourceGroups", k) && k + 1 < |segments| && segments[k + 1] == group;
      assert k == g;
    }
  }

  lemma FirstEmpty(segments: seq<string>)
    requires Segments(segments)
    ensures NonEmpty([""] + segments) == segments
  {
    assert ([""] + segments)[1..] == segments;
    NothingEmpty(segments);
  }

  lemma JoinedFirst(segment: string, rest: seq<string>)
    ensures Joined([segment] + rest) == ['/'] + segment + Joined(rest)
  {
    assert ([segment] + rest)[1..] == rest;
  }

  lemma GroupIdText(subscription: string, group: string, rest: seq<string>)
    ensures Joined(["subscriptions", subscription, "resourceGroups", group] + rest)
         == "/subscriptions/" + subscription + "/resourceGroups/" + group + Joined(rest)
  {
    var inGroup := [group] + rest;
    var inGroups := ["resourceGroups"] + inGroup;
    var inSubscription := [subscription] + inGroups;
    JoinedFirst(group, rest);
    JoinedFirst("resourceGroups", inGroup);
    JoinedFirst(subscription, inGroups);
    JoinedFirst("subscriptions", inSubscription);
    hide Joined;
    assert ["subscriptions", subscription, "resourceGroups", group] + rest == ["subscriptions"] + inSubscription;
  }

  /** An id as ARM writes it for a resource in a group: both walks read that group. */
  lemma GroupOfResourceId(subscription: string, group: string, rest: seq<string>)
    requires Segments([subscription, group] + rest) && !SameButCase(subscription, "resourceGroups")
    ensures var id := "/subscriptions/" + subscription + "/resourceGroups/" + group + Joined(rest);
            RgFromResourceId(id) == ParseTargetId(id).0 == Some(group)
  {
    hide RgFromResourceId, ParseTargetId, Joined;
    var named := [subscription, group] + rest;
    var segments := ["subscriptions", subscription, "resourceGroups", group] + rest;
    assert named[0] == subscription && named[1] == group;
    forall i | 4 <= i < |segments| ensures segments[i] != "" && '/' !in segments[i] {
      assert segments[i] == named[i - 2];
    }
    assert FirstAt(segments, "resourceGroups", 2) && segments[3] == group;
    IdReads(segments, group);
    GroupIdText(subscription, group, rest);
  }

  // ---- Where a nested deployment is listed ----

  /** The group a target is in: its field's, or, without the field, the one its id names. */
  ghost predicate TargetIn(target: Target, group: string) {
    || target.resourceGroup == Some(group)
    || (target.resourceGroup.None?
        && exists segments :: Segments(segments) && target.id == Some(Joined(segments)) && InGroup(segments, group))
  }

  /**
   `op`, listed by `node`, nests the deployment `child`: it targets a deployment of that name, which is
   listed in the group of the deployment above it, or else in the group of the target.
   */
  ghost predicate Places(node: Node, op: Op, child: Node) {
    && op.properties.Some? && op.properties.value.target.Some?
    && var target := op.properties.value.target.value;
       && target.resourceType == Some("Microsoft.Resources/deployments")
       && target.resourceName == Some(child.deployment) && child.deployment != ""
       && (node.scope.Group? ==> child.scope == node.scope)
       && (node.scope.Subscription? && child.scope.Group? ==>
             child.scope.name != "" && TargetIn(target, child.scope.name))
       && (node.scope.Subscription? && child.scope.Subscription? ==> TargetIn(target, ""))
  }

  /** Without the group field, the id is made of segments. */
  ghost predicate HasProperId(op: Op) {
    op.properties.Some? && op.properties.value.target.Some?
    && var target := op.properties.value.target.value;
       target.resourceGroup.None? ==> exists segments :: Segments(segments) && target.id == Some(Joined(segments))
  }

  lemma InSomeGroup(segments: seq<string>) returns (group: string)
    requires Segments(segments)
    ensures InGroup(segments, group)
  {
    hide SameButCase;
    if k :| FirstAt(segments, "resourceGroups", k) && k + 1 < |segments| {
      group := segments[k + 1];
    } else {
      group := "";
    }
  }

  /** The group the progress walk reads is the one the target is in. */
  lemma GroupExactly(target: Target, group: string)
    requires target.id.Some?
    requires target.resourceGroup.Some? || exists segments :: Segments(segments) && target.id == Some(Joined(segments))
    ensures TargetIn(target, group) <==>
            Or(target.resourceGroup, RgFromResourceId(target.id.value)).GetOr("") == group
  {
    hide RgFromResourceId, InGroup;
    if target.resourceGroup.None? {
      var segments :| Segments(segments) && target.id == Some(Joined(segments));
      var named := InSomeGroup(segments);
      IdReads(segments, named);
      if TargetIn(target, group) {
        var s :| Segments(s) && target.id == Some(Joined(s)) && InGroup(s, group);
        IdReads(s, group);
      }
    }
  }

  lemma PlacesExactly(node: Node, op: Op, child: Node)
    requires Canonical(op) && HasProperId(op)
    ensures ProgressChild(node, op) == Some(child) <==> Places(node, op, child)
    ensures TimingChild(node, op) == Some(child) <==> Places(node, op, child)
  {
    hide RgFromResourceId, TargetIn, EqIgnoreCase, ParseTargetId, TimingChild;
    SameSpelling();
    SameReading(node, op);
    GroupExactly(op.properties.value.target.value, if child.scope.Group? then child.scope.name else "");
  }

  // ---- What both walks visit ----

  ghost predicate ProperIds(arm: Arm) {
    forall node, op :: node in arm && op in arm[node] ==> HasProperId(op)
  }

  /** `steps` placements lead from one deployment to another. */
  ghost predicate Leads(arm: Arm, node: Node, target: Node, steps: nat)
    decreases steps
  {
    if steps == 0 then node == target
    else
      && node in arm
      && exists op, child :: op in arm[node] && Places(node, op, child) && Leads(arm, child, target, steps - 1)
  }

  lemma LeadsOn(arm: Arm, root: Node, op: Op, child: Node, lister: Node, steps: nat)
    requires root in arm && op in arm[root] && Places(root, op, child) && Leads(arm, child, lister, steps)
    ensures Leads(arm, root, lister, steps + 1)
  {
    hide Places;
  }

  lemma FirstStep(arm: Arm, root: Node, lister: Node, steps: nat) returns (op: Op, child: Node)
    requires 0 < steps && Leads(arm, root, lister, steps)
    ensures root in arm && op in arm[root] && Places(root, op, child) && Leads(arm, child, lister, steps - 1)
  {
    hide Places;
    op, child :| op in arm[root] && Places(root, op, child) && Leads(arm, child, lister, steps - 1);
  }

  lemma {:induction false} NestsLeads(arm: Arm, node: Node, target: Node, steps: nat)
    requires WellKept(arm) && ProperIds(arm) && Nests(arm, node, target, steps)
    ensures Leads(arm, node, target, steps)
    decreases steps
  {
    hide Places, ProgressChild, TimingChild, DedupOps, Canonical, HasProperId, OpKey, Leads;
    if steps == 0 {
      NoSteps(arm, node, target);
    } else {
      DedupSubset(arm[node]);
      var op :| op in DedupOps(arm[node]) && NestsThrough(arm, node, op, target, steps);
      var child := ProgressChild(node, op).value;
      PlacesExactly(node, op, child);
      NestsLeads(arm, child, target, steps - 1);
      LeadsOn(arm, node, op, child, target, steps - 1);
    }
  }

  lemma NoSteps(arm: Arm, node: Node, target: Node)
    ensures Leads(arm, node, target, 0) <==> node == target
  {
  }

  lemma {:induction false} LeadsNest(arm: Arm, node: Node, target: Node, steps: nat)
    requires WellKept(arm) && ProperIds(arm) && Leads(arm, node, target, steps)
    ensures Nests(arm, node, target, steps)
    decreases steps
  {
    hide Places, ProgressChild, TimingChild, DedupOps, Canonical, HasProperId, OpKey, Leads;
    if steps == 0 {
      NoSteps(arm, node, target);
    } else {
      var op, child := FirstStep(arm, node, target, steps);
      PlacesExactly(node, op, child);
      var kept := Representative(arm, node, op);
      LeadsNest(arm, child, target, steps - 1);
      assert NestsThrough(arm, node, kept, target, steps);
    }
  }

  lemma NestsIsLeads(arm: Arm, node: Node, target: Node, steps: nat)
    requires WellKept(arm) && ProperIds(arm)
    ensures Nests(arm, node, target, steps) <==> Leads(arm, node, target, steps)
  {
    hide Nests, Leads, WellKept, ProperIds;
    if Nests(arm, node, target, steps) {
      NestsLeads(arm, node, target, steps);
    }
    if Leads(arm, node, target, steps) {
      LeadsNest(arm, node, target, steps);
    }
  }

  /** The operation is the last of those listed with its id. */
  ghost predicate LastOfItsId(ops: seq<Op>, op: Op) {
    exists k :: 0 <= k < |ops| && ops[k] == op && TargetId(op).Some?
                && forall j :: k < j < |ops| ==> TargetId(ops[j]) != TargetId(op)
  }

  ghost function TargetId(op: Op): Option<string> {
    if op.properties == None || op.properties.value.target == None then None else op.properties.value.target.value.id
  }

  lemma KeptIsLast(ops: seq<Op>, op: Op)
    ensures op in DedupOps(ops) <==> LastOfItsId(ops, op)
  {
    hide LastWith;
    assert forall o: Op :: TargetId(o) == IdOf(o);
    DedupKeepsLast(ops);
    var r := DedupOps(ops);
    if op in r {
      var i :| 0 <= i < |r| && r[i] == op;
      assert r[i] == LastOp(ops, r[i]);
      assert Targets(r, IdOf(op).value);
    }
    if LastOfItsId(ops, op) {
      var k :| 0 <= k < |ops| && ops[k] == op && forall j :: k < j < |ops| ==> TargetId(ops[j]) != TargetId(op);
      var id := TargetId(op).value;
      assert Targets(ops, id);
      var i :| 0 <= i < |r| && IdOf(r[i]) == Some(id);
      assert r[i] == LastWith(ops, id);
      var m :| 0 <= m < |ops| && ops[m] == r[i] && forall j :: m < j < |ops| ==> IdOf(ops[j]) != Some(id);
    }
  }

  ghost predicate ReportedFrom(arm: Arm, root: Node, e: DeploymentOp, lister: Node, steps: nat) {
    && Leads(arm, root, lister, steps) && lister in arm && LastOfItsId(arm[lister], e.op)
    && e.parent == lister.deployment && e.depth as int == if steps <= 255 then steps else 255
  }

  /**
   The progress walk reports the last operation on each id of exactly the deployments that placements
   lead to, with the number of placements, up to 255, as depth.
   */
  lemma ReportsWhatIsPlaced(arm: Arm, root: Node, rank: Node -> nat, e: DeploymentOp)
    requires Ranked(arm, rank) && WellKept(arm) && ProperIds(arm)
    ensures Reported(arm, root, 0, rank, e) <==> exists lister, steps: nat :: ReportedFrom(arm, root, e, lister, steps)
  {
    hide Reported, Nests, Leads, DedupOps, LastOfItsId, ProperIds, WellKept, Ranked;
    ReportsExactlyTheTree(arm, root, 0, rank, e);
    if Reported(arm, root, 0, rank, e) {
      var lister, steps: nat :| ListedAt(arm, root, 0, e, lister, steps);
      NestsIsLeads(arm, root, lister, steps);
      KeptIsLast(arm[lister], e.op);
      assert ReportedFrom(arm, root, e, lister, steps);
    }
    if lister, steps: nat :| ReportedFrom(arm, root, e, lister, steps) {
      NestsIsLeads(arm, root, lister, steps);
      KeptIsLast(arm[lister], e.op);
      assert ListedAt(arm, root, 0, e, lister, steps);
    }
  }

  // ---- Rows ----

  /** The seconds an operation took: what its text spells, 0 without one or with one that spells nothing. */
  ghost predicate Takes(op: Op, seconds: real)
    requires op.properties.Some?
  {
    var text := op.properties.value.duration;
    || (text.Some? && exists parts, trailing :: Spells(text.value, parts, trailing) && seconds == Seconds(parts))
    || (seconds == 0.0 && (text.None? || forall parts, trailing :: !Spells(text.value, parts, trailing)))
  }

  /** The operation is on a resource of this type and name. */
  ghost predicate On(op: Op, resourceType: string, resourceName: string) {
    && op.properties.Some? && op.properties.value.target.Some?
    && op.properties.value.target.value.resourceType == Some(resourceType)
    && op.properties.value.target.value.resourceName == Some(resourceName)
  }

  /** A row says what its operation says. */
  ghost predicate Describes(t: Timing, op: Op, deployment: string) {
    && On(op, t.resourceType, t.resourceName) && t.deployment == deployment
    && Takes(op, t.seconds)
    && t.provisioningState == (match op.properties.value.provisioningState case Some(s) => s case None => "")
  }

  lemma RowDescribes(op: Op, deployment: string, t: Timing)
    requires Canonical(op)
    ensures t in Row(op, deployment) <==> Describes(t, op, deployment)
  {
    hide ParseTargetId, RgFromResourceId, EqIgnoreCase, Parse, Spells, Seconds;
    var text := op.properties.value.duration;
    if text.Some? {
      ParsesExactly(text.value);
    }
  }

  ghost predicate RowFrom(arm: Arm, root: Node, t: Timing, op: Op, lister: Node, steps: nat) {
    Leads(arm, root, lister, steps) && lister in arm && op in arm[lister] && Describes(t, op, lister.deployment)
  }

  ghost predicate HasRow(arm: Arm, root: Node, t: Timing) {
    exists op, lister, steps: nat :: RowFrom(arm, root, t, op, lister, steps)
  }

  lemma RowHere(arm: Arm, root: Node, t: Timing, op: Op)
    requires root in arm && op in arm[root]
    ensures RowFrom(arm, root, t, op, root, 0) <==> Describes(t, op, root.deployment)
  {
    hide Describes;
  }

  /** The timings walk collects a row for each operation of exactly the deployments that placements lead to. */
  lemma {:induction false} WalksWhatIsPlaced(arm: Arm, root: Node, rank: Node -> nat, t: Timing)
    requires Ranked(arm, rank) && WellKept(arm) && ProperIds(arm)
    ensures Walked(arm, root, rank, t) <==> HasRow(arm, root, t)
    decreases rank(root)
  {
    hide Walked, Places, Describes, TimingChild, ProgressChild, Canonical, HasProperId, Leads, Row;
    WalkedBy(arm, root, rank, t);
    if Walked(arm, root, rank, t) {
      var op :| op in arm[root] && WalkedThrough(arm, root, rank, t, op);
      if t in Row(op, root.deployment) {
        RowDescribes(op, root.deployment, t);
        RowHere(arm, root, t, op);
      } else {
        var child := TimingChild(root, op).value;
        PlacesExactly(root, op, child);
        WalksWhatIsPlaced(arm, child, rank, t);
        var inner, lister, steps: nat :| RowFrom(arm, child, t, inner, lister, steps);
        LeadsOn(arm, root, op, child, lister, steps);
        assert RowFrom(arm, root, t, inner, lister, steps + 1);
      }
    }
    if op, lister, steps: nat :| RowFrom(arm, root, t, op, lister, steps) {
      RowIsWalked(arm, root, rank, t, op, lister, steps);
    }
  }

  lemma {:induction false} RowIsWalked(arm: Arm, root: Node, rank: Node -> nat, t: Timing, op: Op, lister: Node,
                                       steps: nat)
    requires Ranked(arm, rank) && WellKept(arm) && ProperIds(arm)
    requires RowFrom(arm, root, t, op, lister, steps)
    ensures Walked(arm, root, rank, t)
    decreases steps
  {
    hide Walked, Places, Describes, TimingChild, ProgressChild, Canonical, HasProperId, Row;
    WalkedBy(arm, root, rank, t);
    if steps == 0 {
      RowDescribes(op, root.deployment, t);
      assert WalkedThrough(arm, root, rank, t, op);
    } else {
      var outer, child := FirstStep(arm, root, lister, steps);
      PlacesExactly(root, outer, child);
      RowIsWalked(arm, child, rank, t, op, lister, steps - 1);
      assert WalkedThrough(arm, root, rank, t, outer);
    }
  }

  lemma PartsOfId(segments: seq<string>)
    requires Segments(segments)
    ensures NonEmpty(Split(Joined(segments))) == segments
  {
    SplitJoined(segments);
    FirstEmpty(segments);
  }

  lemma PositionExactly(segments: seq<string>, word: string, p: int)
    ensures FirstAt(segments, word, p) <==> p == Position(segments, word) < |segments|
  {
    hide SameButCase;
    PositionIsFirst(segments, word);
  }

  /** Type and name are the three segments behind the first `providers`, or are not there. */
  lemma IdNames(segments: seq<string>, p: nat)
    requires Segments(segments)
    ensures var (_, rtype, rname) := ParseTargetId(Joined(segments));
            && (FirstAt(segments, "providers", p) && p + 4 <= |segments| ==>
                  rtype == Some(segments[p + 1] + "/" + segments[p + 2]) && rname == Some(segments[p + 3]))
            && ((forall k :: FirstAt(segments, "providers", k) ==> k + 4 > |segments|) ==> rtype == rname == None)
  {
    hide Position, FirstAt, Segments, NonEmpty, Split, Joined;
    PartsOfId(segments);
    PositionExactly(segments, "providers", p);
    PositionExactly(segments, "providers", Position(segments, "providers"));
  }

  lemma NotEmptyId(segments: seq<string>, p: nat)
    requires FirstAt(segments, "providers", p)
    ensures Joined(segments) != ""
  {
  }

  /** Without type and name fields, the row has those the id names behind its first `providers`. */
  lemma RowOfId(op: Op, deployment: string, segments: seq<string>, p: nat)
    requires op.properties.Some? && op.properties.value.target.Some? && Segments(segments)
    requires op.properties.value.target.value.id == Some(Joined(segments))
    requires op.properties.value.target.value.resourceType.None? && op.properties.value.target.value.resourceName.None?
    requires FirstAt(segments, "providers", p) && p + 4 <= |segments|
    ensures |Row(op, deployment)| == 1
    ensures var t := Row(op, deployment)[0];
            && t.resourceType == segments[p + 1] + "/" + segments[p + 2] && t.resourceName == segments[p + 3]
            && t.deployment == deployment && Takes(op, t.seconds)
  {
    hide Joined, FirstAt, ParseTargetId, Parse, Spells, Seconds, Segments;
    IdNames(segments, p);
    NotEmptyId(segments, p);
    var text := op.properties.value.duration;
    if text.Some? {
      ParsesExactly(text.value);
    }
  }

  // ---- One placement ----

  /** Both walks show an operation that `deployment` lists one level below the root. */
  ghost predicate Shown(arm: Arm, root: Node, rank: Node -> nat, deployment: string, op: Op)
    requires Ranked(arm, rank)
  {
    && (exists e :: Reported(arm, root, 0, rank, e) && e.parent == deployment && e.depth == 1
                    && TargetId(e.op) == TargetId(op))
    && (exists t :: Walked(arm, root, rank, t) && Describes(t, op, deployment))
  }

  /**
   An operation of the root on a deployment `name` in a group, which its field or its id tells, brings
   what that deployment of that group lists into both walks; without a group, what the subscription's
   deployment of the name lists.
   */
  lemma NestedIsShown(arm: Arm, root: Node, rank: Node -> nat, op: Op, name: string, group: string, inner: Op)
    requires Ranked(arm, rank) && WellKept(arm) && ProperIds(arm)
    requires root.scope == Subscription && root in arm && op in arm[root] && name != ""
    requires On(op, "Microsoft.Resources/deployments", name) && TargetIn(op.properties.value.target.value, group)
    ensures group != "" && Node(Group(group), name) in arm && inner in arm[Node(Group(group), name)] ==>
              Shown(arm, root, rank, name, inner)
    ensures group == "" && Node(Subscription, name) in arm && inner in arm[Node(Subscription, name)] ==>
              Shown(arm, root, rank, name, inner)
  {
    hide TargetIn, Reported, Walked, LastOfItsId, WellKept;
    var child := Node(if group == "" then Subscription else Group(group), name);
    if child in arm && inner in arm[child] {
      assert Places(root, op, child);
      assert Leads(arm, child, child, 0);
      LeadsOn(arm, root, op, child, child, 0);
      ShownBelow(arm, root, rank, child, inner);
    }
  }

  lemma ShownBelow(arm: Arm, root: Node, rank: Node -> nat, lister: Node, op: Op)
    requires Ranked(arm, rank) && WellKept(arm) && ProperIds(arm)
    requires Leads(arm, root, lister, 1) && lister in arm && op in arm[lister]
    ensures Shown(arm, root, rank, lister.deployment, op)
  {
    hide Reported, Walked, Leads, Describes, DedupOps, ProperIds;
    assert Canonical(op);
    Survivor(arm[lister], op);
    var kept :| kept in DedupOps(arm[lister]) && IdOf(kept) == IdOf(op);
    KeptIsLast(arm[lister], kept);
    var e := DeploymentOp(lister.deployment, 1, kept);
    ReportsWhatIsPlaced(arm, root, rank, e);
    assert ReportedFrom(arm, root, e, lister, 1);
    var t := SomeRow(op, lister.deployment);
    WalksWhatIsPlaced(arm, root, rank, t);
    assert RowFrom(arm, root, t, op, lister, 1);
  }

  lemma SomeRow(op: Op, deployment: string) returns (t: Timing)
    requires Canonical(op)
    ensures Describes(t, op, deployment)
  {
    SameReading(Node(Subscription, deployment), op);
    t := Row(op, deployment)[0];
    RowDescribes(op, deployment, t);
  }

  /** Below a group everything is listed in that group, in whatever state the tree is kept. */
  lemma {:induction false} StaysInGroup(arm: Arm, node: Node, lister: Node, steps: nat)
    requires node.scope.Group? && Nests(arm, node, lister, steps)
    ensures lister.scope == node.scope
    decreases steps
  {
    hide NestedModuleTarget, DedupOps;
    if steps > 0 {
      var op :| op in DedupOps(arm[node]) && NestsThrough(arm, node, op, lister, steps);
      StaysInGroup(arm, ProgressChild(node, op).value, lister, steps - 1);
    }
  }
}
