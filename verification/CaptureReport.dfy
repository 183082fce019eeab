/** What the report of a capture says about the operations of the tree. */
module CaptureReport {
  import opened DeploymentTree
  import opened NestedScopes
  import opened Operations
  import opened TextOrder
  import opened TimingReport
  import opened WalkAgreement

  /** No row of the operations with this key took longer. */
  ghost predicate IsLongest(arm: Arm, root: Node, key: Key, seconds: real) {
    && (exists t :: HasRow(arm, root, t) && TimingKey(t) == key && t.seconds == seconds)
    && (forall t :: HasRow(arm, root, t) && TimingKey(t) == key ==> t.seconds <= seconds)
  }

  /** A row of the report is that of an operation, and none with its key took longer. */
  ghost predicate ShowsLongest(arm: Arm, root: Node, t: Timing) {
    HasRow(arm, root, t) && IsLongest(arm, root, TimingKey(t), t.seconds)
  }

  lemma HasRowHasType(arm: Arm, root: Node, t: Timing)
    requires WellKept(arm) && HasRow(arm, root, t)
    ensures t.resourceType != ""
  {
    hide Leads, Takes;
    var op, lister, steps: nat :| RowFrom(arm, root, t, op, lister, steps);
    assert Canonical(op);
  }

  lemma WalkedRows(arm: Arm, root: Node, rank: Node -> nat)
    requires Ranked(arm, rank) && WellKept(arm) && ProperIds(arm)
    ensures forall t :: t in Walk(arm, root, rank) <==> HasRow(arm, root, t)
  {
    hide HasRow, WellKept, ProperIds, Ranked;
    forall t ensures t in Walk(arm, root, rank) <==> HasRow(arm, root, t) {
      WalksWhatIsPlaced(arm, root, rank, t);
    }
  }

  lemma LongestRow(arm: Arm, root: Node, rows: seq<Timing>, key: Key)
    requires (forall t :: t in rows <==> HasRow(arm, root, t)) && HasKey(rows, key)
    ensures IsLongest(arm, root, key, Longest(rows, key))
  {
    hide HasRow, Longest;
    LongestIsMax(rows, key);
    var t :| t in rows && TimingKey(t) == key && t.seconds == Longest(rows, key);
  }

  /** By type, then name, then deployment, as text. */
  predicate Precedes(a: Timing, b: Timing) {
    || Less(a.resourceType, b.resourceType)
    || (a.resourceType == b.resourceType && Less(a.resourceName, b.resourceName))
    || (a.resourceType == b.resourceType && a.resourceName == b.resourceName && Less(a.deployment, b.deployment))
  }

  /**
   The capture has, in order, one row for each type, name and listing deployment of the operations that placements
   lead to, and it is the row of one that took longest.
   */
  lemma CaptureShowsLongest(arm: Arm, deployment: string, rank: Node -> nat)
    requires Ranked(arm, rank) && WellKept(arm) && ProperIds(arm)
    ensures var root := Node(Subscription, deployment);
            var report := Report(Walk(arm, root, rank));
            && (forall t :: t in report ==> ShowsLongest(arm, root, t))
            && (forall t :: HasRow(arm, root, t) ==> HasKey(report, TimingKey(t)))
            && (forall i, j :: 0 <= i < j < |report| ==>
                  Precedes(report[i], report[j]) && TimingKey(report[i]) != TimingKey(report[j]))
  {
    hide HasRow, Report, Walk, WellKept, ProperIds, Ranked, KeyLess, Longest, IsLongest;
    var root := Node(Subscription, deployment);
    var rows := Walk(arm, root, rank);
    var report := Report(rows);
    WalkedRows(arm, root, rank);
    ReportKeepsLongest(rows);
    forall t | t in report ensures ShowsLongest(arm, root, t) {
      LongestRow(arm, root, rows, TimingKey(t));
    }
    forall t | HasRow(arm, root, t) ensures HasKey(report, TimingKey(t)) {
      HasRowHasType(arm, root, t);
    }
    forall i, j | 0 <= i < j < |report|
      ensures Precedes(report[i], report[j]) && TimingKey(report[i]) != TimingKey(report[j])
    {
      KeyLessTotal(TimingKey(report[i]), TimingKey(report[j]));
      KeyPrecedes(report[i], report[j]);
    }
  }

  lemma KeyPrecedes(a: Timing, b: Timing)
    ensures KeyLess(TimingKey(a), TimingKey(b)) <==> Precedes(a, b)
  {
    hide Less;
  }

  // ---- The total ----

  ghost function Sum(m: map<Key, real>): real {
    if m == map[] then 0.0
    else
      var key :| key in m;
      m[key] + Sum(m - {key})
  }

  lemma {:induction false} SumWithout(m: map<Key, real>, key: Key)
    requires key in m
    ensures Sum(m) == m[key] + Sum(m - {key})
    decreases |m|
  {
    var first :| first in m && Sum(m) == m[first] + Sum(m - {first});
    if first != key {
      SumWithout(m - {first}, key);
      SumWithout(m - {key}, first);
      assert m - {first} - {key} == m - {key} - {first};
    }
  }

  lemma {:induction false} SumOfLongest(m: map<Key, real>, rows: seq<Timing>)
    requires forall key :: key in m ==> m[key] == Longest(rows, key)
    ensures Sum(m) == SumLongest(m.Keys, rows)
    decreases |m|
  {
    hide Longest;
    if m != map[] {
      var key :| key in m;
      SumWithout(m, key);
      SumLongestWithout(m.Keys, rows, key);
      SumOfLongest(m - {key}, rows);
      assert (m - {key}).Keys == m.Keys - {key};
    }
  }

  /** The keys of the operations that placements lead to and that are not deployments. */
  ghost predicate Counts(arm: Arm, root: Node, key: Key) {
    key.resourceType != "Microsoft.Resources/deployments" && exists t :: HasRow(arm, root, t) && TimingKey(t) == key
  }

  /**
   The total of a capture adds up the longest duration of every key that counts, once each.
   */
  lemma TotalAddsLongest(arm: Arm, deployment: string, rank: Node -> nat) returns (longest: map<Key, real>)
    requires Ranked(arm, rank) && WellKept(arm) && ProperIds(arm)
    ensures var root := Node(Subscription, deployment);
            && (forall key :: key in longest <==> Counts(arm, root, key))
            && (forall key :: key in longest ==> IsLongest(arm, root, key, longest[key]))
            && Total(Report(Walk(arm, root, rank))) == Sum(longest)
  {
    hide HasRow, Report, Walk, WellKept, ProperIds, Ranked, Longest, Sum, SumLongest, Total, IsLongest;
    var root := Node(Subscription, deployment);
    var rows := Walk(arm, root, rank);
    WalkedRows(arm, root, rank);
    longest := map key | key in CountedKeys(rows) :: Longest(rows, key);
    assert longest.Keys == CountedKeys(rows);
    TotalOfReport(rows);
    SumOfLongest(longest, rows);
    forall key | key in longest ensures IsLongest(arm, root, key, longest[key]) {
      LongestRow(arm, root, rows, key);
    }
    forall key ensures key in longest <==> Counts(arm, root, key) {
      CountedByRow(arm, root, rows, key);
    }
  }

  lemma CountedByRow(arm: Arm, root: Node, rows: seq<Timing>, key: Key)
    requires WellKept(arm) && forall t :: t in rows <==> HasRow(arm, root, t)
    ensures key in CountedKeys(rows) <==> Counts(arm, root, key)
  {
    hide HasRow, WellKept;
    if t :| HasRow(arm, root, t) && TimingKey(t) == key {
      HasRowHasType(arm, root, t);
    }
  }
}
