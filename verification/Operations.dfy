/** ARM deployment operations and what the two walkers read from them. */
module Operations {
  import opened Durations
  import opened Strings
  import opened Wrappers

  const DEPLOYMENTS := "Microsoft.Resources/deployments"

  /** `targetResource`; a missing or non-text field is None. */
  datatype Target = Target(id: Option<string>, resourceType: Option<string>, resourceName: Option<string>,
                           resourceGroup: Option<string>)

  datatype Properties = Properties(duration: Option<string>, provisioningState: Option<string>, target: Option<Target>)

  datatype Op = Op(properties: Option<Properties>)

  datatype Timing = Timing(resourceType: string, resourceName: string, provisioningState: string, seconds: real,
                           deployment: string)

  // ---- Resource ids ----

  function Split(s: string): (parts: seq<string>)
    ensures |parts| >= 1
  {
    if s == "" then [""]
    else
      var rest := Split(s[1..]);
      if s[0] == '/' then [""] + rest else [[s[0]] + rest[0]] + rest[1..]
  }

  function NonEmpty(parts: seq<string>): seq<string> {
    if parts == [] then []
    else (if parts[0] != "" then [parts[0]] else []) + NonEmpty(parts[1..])
  }

  predicate EqIgnoreCase(a: string, b: string) {
    |a| == |b| && forall i :: 0 <= i < |a| ==> Lower(a[i]) == Lower(b[i])
  }

  /** Index of the first segment equal to `word` but for case, or the number of segments. */
  function Position(parts: seq<string>, word: string): (i: nat)
    ensures i <= |parts|
  {
    if parts == [] || EqIgnoreCase(parts[0], word) then 0 else Position(parts[1..], word) + 1
  }

  /** Resource group, type and name as the timings walker reads them from an id. */
  function ParseTargetId(id: string): (Option<string>, Option<string>, Option<string>) {
    var parts := NonEmpty(Split(id));
    var g := Position(parts, "resourceGroups");
    var rg := if g + 1 < |parts| then Some(parts[g + 1]) else None;
    var p := Position(parts, "providers");
    if p < |parts| && |parts| >= p + 4 then (rg, Some(parts[p + 1] + "/" + parts[p + 2]), Some(parts[p + 3]))
    else (rg, None, None)
  }

  /** Resource group as the progress walker reads it from an id. */
  function RgFromResourceId(id: string): Option<string> {
    var parts := Split(id)[1..];
    var g := Position(parts, "resourceGroups");
    if g + 1 < |parts| then Some(parts[g + 1]) else None
  }

  // ---- Rows and nested deployments ----

  function Or(a: Option<string>, b: Option<string>): Option<string> {
    if a.Some? then a else b
  }

  /** Timing row of an operation and, when it is a nested deployment, its group and name. */
  function AzOpToTiming(op: Op, deployment: string): Option<(Timing, Option<(string, string)>)> {
    match op.properties
    case None => None
    case Some(props) =>
      var duration := if props.duration.Some? then Parse(props.duration.value).GetOr(0.0) else 0.0;
      var target := props.target.GetOr(Target(None, None, None, None));
      var idText := target.id.GetOr("");
      var (idRg, idType, idName) := if idText == "" then (None, None, None) else ParseTargetId(idText);
      var rtype := Or(target.resourceType, idType).GetOr("");
      var rname := Or(target.resourceName, idName).GetOr("");
      var rg := Or(target.resourceGroup, idRg).GetOr("");
      var nested := if rtype == DEPLOYMENTS && rname != "" then Some((rg, rname)) else None;
      Some((Timing(rtype, rname, props.provisioningState.GetOr(""), duration, deployment), nested))
  }

  /** Group and name of the nested deployment an operation targets, for the progress walker. */
  function NestedModuleTarget(op: Op): Option<(string, string)> {
    if op.properties.None? || op.properties.value.target.None? then None
    else
      var target := op.properties.value.target.value;
      if !EqIgnoreCase(target.resourceType.GetOr(""), DEPLOYMENTS) then None
      else if target.resourceName.None? || target.resourceName.value == "" then None
      else
        var fromId := if target.id.Some? then RgFromResourceId(target.id.value) else None;
        Some((Or(target.resourceGroup, fromId).GetOr(""), target.resourceName.value))
  }

  function IdOf(op: Op): Option<string> {
    if op.properties.None? || op.properties.value.target.None? then None
    else op.properties.value.target.value.id
  }

  // ---- Removing duplicate operations ----

  /** Target ids in the order they are first seen. */
  function FirstSeen(ops: seq<Op>): seq<string> {
    if ops == [] then []
    else
      var before := FirstSeen(ops[..|ops| - 1]);
      var id := IdOf(ops[|ops| - 1]);
      if id.Some? && id.value !in before then before + [id.value] else before
  }

  predicate Targets(ops: seq<Op>, id: string) {
    exists k :: 0 <= k < |ops| && IdOf(ops[k]) == Some(id)
  }

  /** The last operation that targets `id`. */
  function LastWith(ops: seq<Op>, id: string): (op: Op)
    requires Targets(ops, id)
    ensures exists k :: 0 <= k < |ops| && ops[k] == op && IdOf(op) == Some(id)
                        && forall j :: k < j < |ops| ==> IdOf(ops[j]) != Some(id)
  {
    var n := |ops| - 1;
    if IdOf(ops[n]) == Some(id) then ops[n]
    else
      var rest := ops[..n];
      assert Targets(rest, id) by {
        var k :| 0 <= k < |ops| && IdOf(ops[k]) == Some(id);
        assert rest[k] == ops[k];
      }
      LastWith(rest, id)
  }

  lemma {:induction false} FirstSeenTargets(ops: seq<Op>)
    ensures forall id :: id in FirstSeen(ops) <==> Targets(ops, id)
    ensures forall i, j :: 0 <= i < j < |FirstSeen(ops)| ==> FirstSeen(ops)[i] != FirstSeen(ops)[j]
  {
    if ops != [] {
      var n := |ops| - 1;
      var rest := ops[..n];
      FirstSeenTargets(rest);
      forall id ensures Targets(ops, id) <==> Targets(rest, id) || IdOf(ops[n]) == Some(id) {
        if Targets(ops, id) {
          var k :| 0 <= k < |ops| && IdOf(ops[k]) == Some(id);
          assert k == n || rest[k] == ops[k];
        }
        if Targets(rest, id) {
          var k :| 0 <= k < |rest| && IdOf(rest[k]) == Some(id);
          assert ops[k] == rest[k];
        }
      }
    }
  }

  /** One operation per target id: ids in first-seen order, each with its last-seen operation. */
  function DedupOps(ops: seq<Op>): (r: seq<Op>)
    ensures |r| == |FirstSeen(ops)|
  {
    FirstSeenTargets(ops);
    var ids := FirstSeen(ops);
    seq(|ids|, i requires 0 <= i < |ids| => LastWith(ops, ids[i]))
  }

  method DedupOpsByTarget(ops: seq<Op>) returns (r: seq<Op>)
    ensures r == DedupOps(ops)
  {
    var order: seq<string> := [];
    var latest: map<string, Op> := map[];
    for i := 0 to |ops|
      invariant order == FirstSeen(ops[..i])
      invariant IsLatest(ops[..i], latest)
    {
      FirstSeenTargets(ops[..i]);
      assert ops[..i + 1][..i] == ops[..i];
      var id := IdOf(ops[i]);
      LatestStep(ops, i, latest);
      if id.Some? {
        if id.value !in latest {
          order := order + [id.value];
        }
        latest := latest[id.value := ops[i]];
      }
    }
    assert ops[..|ops|] == ops;
    r := TakeInOrder(ops, order, latest);
  }

  /** The last operation of every target id seen. */
  ghost predicate IsLatest(ops: seq<Op>, latest: map<string, Op>) {
    && (forall id :: id in latest <==> Targets(ops, id))
    && forall id :: id in latest ==> latest[id] == LastWith(ops, id)
  }

  lemma LatestStep(ops: seq<Op>, i: nat, latest: map<string, Op>)
    requires i < |ops| && IsLatest(ops[..i], latest)
    ensures var id := IdOf(ops[i]);
            IsLatest(ops[..i + 1], if id.Some? then latest[id.value := ops[i]] else latest)
  {
    TargetsStep(ops, i);
  }

  /** Moves the collected operations out of the map in first-seen order. */
  method TakeInOrder(ghost ops: seq<Op>, order: seq<string>, latest: map<string, Op>) returns (r: seq<Op>)
    requires order == FirstSeen(ops) && IsLatest(ops, latest)
    ensures r == DedupOps(ops)
  {
    hide FirstSeen, LastWith, IdOf;
    FirstSeenTargets(ops);
    var left := latest;
    r := [];
    for i := 0 to |order|
      invariant r == DedupOps(ops)[..i]
      invariant forall j :: i <= j < |order| ==> order[j] in left && left[order[j]] == LastWith(ops, order[j])
    {
      var id := order[i];
      if id in left {
        r := r + [left[id]];
        left := left - {id};
      }
    }
  }

  lemma TargetsStep(ops: seq<Op>, i: nat)
    requires i < |ops|
    ensures forall id :: Targets(ops[..i + 1], id) <==> Targets(ops[..i], id) || IdOf(ops[i]) == Some(id)
    ensures forall id :: Targets(ops[..i + 1], id) ==>
              LastWith(ops[..i + 1], id) == if IdOf(ops[i]) == Some(id) then ops[i] else LastWith(ops[..i], id)
  {
    var longer := ops[..i + 1];
    assert longer[..i] == ops[..i] && longer[i] == ops[i];
    forall id ensures Targets(longer, id) <==> Targets(ops[..i], id) || IdOf(ops[i]) == Some(id) {
      if Targets(longer, id) {
        var k :| 0 <= k < |longer| && IdOf(longer[k]) == Some(id);
        assert k == i || ops[..i][k] == longer[k];
      }
      if Targets(ops[..i], id) {
        var k :| 0 <= k < i && IdOf(ops[..i][k]) == Some(id);
        assert longer[k] == ops[..i][k];
      }
    }
  }

  // ---- What duplicate removal does ----

  /** `a` is first seen before any operation targets `b`. */
  ghost predicate SeenBefore(ops: seq<Op>, a: string, b: string) {
    exists k :: 0 <= k < |ops| && IdOf(ops[k]) == Some(a) && forall j :: 0 <= j <= k ==> IdOf(ops[j]) != Some(b)
  }

  lemma {:induction false} FirstSeenOrder(ops: seq<Op>, i: nat, j: nat)
    requires i < j < |FirstSeen(ops)|
    ensures SeenBefore(ops, FirstSeen(ops)[i], FirstSeen(ops)[j])
  {
    var n := |ops| - 1;
    var rest := ops[..n];
    var ids := FirstSeen(ops);
    FirstSeenTargets(rest);
    if j < |FirstSeen(rest)| {
      FirstSeenOrder(rest, i, j);
      var k :| 0 <= k < |rest| && IdOf(rest[k]) == Some(ids[i])
               && forall m :: 0 <= m <= k ==> IdOf(rest[m]) != Some(ids[j]);
      assert IdOf(ops[k]) == Some(ids[i]) && forall m :: 0 <= m <= k ==> ops[m] == rest[m];
    } else {
      assert Targets(rest, ids[i]) && !Targets(rest, ids[j]);
      var k :| 0 <= k < |rest| && IdOf(rest[k]) == Some(ids[i]);
      assert IdOf(ops[k]) == Some(ids[i]) && forall m :: 0 <= m <= k ==> ops[m] == rest[m];
    }
  }

  /**
   Duplicate removal keeps, for each target id and in first-seen order, exactly the last
   operation with that id; operations without an id disappear.
   */
  lemma DedupKeepsLast(ops: seq<Op>)
    ensures var r := DedupOps(ops);
            && (forall i :: 0 <= i < |r| ==> IdOf(r[i]).Some? && r[i] == LastOp(ops, r[i]))
            && (forall i, j :: 0 <= i < j < |r| ==>
                  IdOf(r[i]) != IdOf(r[j]) && SeenBefore(ops, IdOf(r[i]).value, IdOf(r[j]).value))
            && (forall id :: Targets(ops, id) <==> Targets(r, id))
  {
    var r := DedupOps(ops);
    var ids := FirstSeen(ops);
    FirstSeenTargets(ops);
    forall i, j | 0 <= i < j < |r| ensures SeenBefore(ops, ids[i], ids[j]) {
      FirstSeenOrder(ops, i, j);
    }
    forall id ensures Targets(ops, id) <==> Targets(r, id) {
      if Targets(ops, id) {
        var i :| 0 <= i < |ids| && ids[i] == id;
        assert IdOf(r[i]) == Some(id);
      }
    }
  }

  /** The last operation with the same target id as `op`. */
  function LastOp(ops: seq<Op>, op: Op): Op {
    if IdOf(op).Some? && Targets(ops, IdOf(op).value) then LastWith(ops, IdOf(op).value) else op
  }

  lemma {:induction false} FirstSeenOfDistinct(ops: seq<Op>)
    requires forall i :: 0 <= i < |ops| ==> IdOf(ops[i]).Some?
    requires forall i, j :: 0 <= i < j < |ops| ==> IdOf(ops[i]) != IdOf(ops[j])
    ensures |FirstSeen(ops)| == |ops| && forall i :: 0 <= i < |ops| ==> FirstSeen(ops)[i] == IdOf(ops[i]).value
  {
    if ops != [] {
      var n := |ops| - 1;
      FirstSeenOfDistinct(ops[..n]);
      FirstSeenTargets(ops[..n]);
      assert !Targets(ops[..n], IdOf(ops[n]).value);
    }
  }

  /** Removing duplicates twice changes nothing more. */
  lemma DedupIdempotent(ops: seq<Op>)
    ensures DedupOps(DedupOps(ops)) == DedupOps(ops)
  {
    var r := DedupOps(ops);
    DedupKeepsLast(ops);
    FirstSeenOfDistinct(r);
    forall i | 0 <= i < |r| ensures DedupOps(r)[i] == r[i] {
      FirstSeenTargets(r);
      var last := LastWith(r, IdOf(r[i]).value);
      assert forall j :: 0 <= j < |r| && j != i ==> IdOf(r[j]) != IdOf(r[i]);
    }
  }
}
