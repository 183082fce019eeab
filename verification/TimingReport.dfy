/** The report of a capture: rows sorted, one per resource, and their total. */
module TimingReport {
  import opened DeploymentTree
  import opened Operations
  import opened Sorting
  import opened TextOrder
  import opened WalkAgreement
  import opened Wrappers

  // ---- Order of rows ----

  predicate KeyLess(a: Key, b: Key) {
    || Less(a.resourceType, b.resourceType)
    || (a.resourceType == b.resourceType
        && (Less(a.resourceName, b.resourceName)
            || (a.resourceName == b.resourceName && Less(a.deployment, b.deployment))))
  }

  /** By key, and within a key the longest first. */
  predicate RowLessEq(a: Timing, b: Timing) {
    KeyLess(TimingKey(a), TimingKey(b)) || (TimingKey(a) == TimingKey(b) && a.seconds >= b.seconds)
  }

  lemma KeyLessTotal(a: Key, b: Key)
    ensures KeyLess(a, b) || a == b || KeyLess(b, a)
    ensures !(KeyLess(a, b) && KeyLess(b, a)) && !KeyLess(a, a)
  {
    LessTotal(a.resourceType, b.resourceType);
    LessTotal(a.resourceName, b.resourceName);
    LessTotal(a.deployment, b.deployment);
    LessTotal(a.deployment, a.deployment);
    LessTotal(a.resourceType, a.resourceType);
    LessTotal(a.resourceName, a.resourceName);
  }

  lemma KeyLessTransitive(a: Key, b: Key, c: Key)
    requires KeyLess(a, b) && KeyLess(b, c)
    ensures KeyLess(a, c)
  {
    if Less(a.resourceType, b.resourceType) && Less(b.resourceType, c.resourceType) {
      LessTransitive(a.resourceType, b.resourceType, c.resourceType);
    } else if Less(a.resourceName, b.resourceName) && Less(b.resourceName, c.resourceName) {
      LessTransitive(a.resourceName, b.resourceName, c.resourceName);
    } else if Less(a.deployment, b.deployment) && Less(b.deployment, c.deployment) {
      LessTransitive(a.deployment, b.deployment, c.deployment);
    }
  }

  lemma RowsTotal()
    ensures TotalPreorder(RowLessEq)
  {
    hide KeyLess;
    forall a: Timing, b: Timing ensures RowLessEq(a, b) || RowLessEq(b, a) {
      KeyLessTotal(TimingKey(a), TimingKey(b));
    }
    forall a: Timing, b: Timing, c: Timing | RowLessEq(a, b) && RowLessEq(b, c) ensures RowLessEq(a, c) {
      if KeyLess(TimingKey(a), TimingKey(b)) && KeyLess(TimingKey(b), TimingKey(c)) {
        KeyLessTransitive(TimingKey(a), TimingKey(b), TimingKey(c));
      }
    }
  }

  // ---- Keeping one row per key ----

  /** `dedup_by`: drops a row whose key is that of the last row kept. */
  function DropRepeats(rows: seq<Timing>): seq<Timing> {
    if rows == [] then []
    else
      var kept := DropRepeats(rows[..|rows| - 1]);
      var row := rows[|rows| - 1];
      if kept != [] && TimingKey(kept[|kept| - 1]) == TimingKey(row) then kept else kept + [row]
  }

  method DedupBy(rows: seq<Timing>) returns (kept: seq<Timing>)
    ensures kept == DropRepeats(rows)
  {
    kept := [];
    for i := 0 to |rows|
      invariant kept == DropRepeats(rows[..i])
    {
      assert rows[..i + 1][..i] == rows[..i];
      if kept == [] || TimingKey(kept[|kept| - 1]) != TimingKey(rows[i]) {
        kept := kept + [rows[i]];
      }
    }
    assert rows[..|rows|] == rows;
  }

  ghost predicate KeysAscend(rows: seq<Timing>) {
    forall i, j :: 0 <= i < j < |rows| ==> KeyLess(TimingKey(rows[i]), TimingKey(rows[j]))
  }

  ghost predicate Tops(kept: seq<Timing>, r: Timing) {
    exists k :: k in kept && TimingKey(k) == TimingKey(r) && k.seconds >= r.seconds
  }

  /** Keys strictly ascend, nothing is made up, and each row has a kept row at least as long. */
  ghost predicate Condenses(kept: seq<Timing>, rows: seq<Timing>) {
    && KeysAscend(kept)
    && (forall r :: r in kept ==> r in rows)
    && (forall r :: r in rows ==> Tops(kept, r))
    && (rows != [] ==> kept != [] && TimingKey(kept[|kept| - 1]) == TimingKey(rows[|rows| - 1]))
  }

  lemma TopsMore(kept: seq<Timing>, row: Timing, r: Timing)
    requires Tops(kept, r)
    ensures Tops(kept + [row], r)
  {
    var k :| k in kept && TimingKey(k) == TimingKey(r) && k.seconds >= r.seconds;
    assert k in kept + [row];
  }

  lemma AppendNewKey(kept: seq<Timing>, before: seq<Timing>, row: Timing)
    requires Condenses(kept, before)
    requires before != [] ==> KeyLess(TimingKey(before[|before| - 1]), TimingKey(row))
    ensures Condenses(kept + [row], before + [row])
  {
    hide KeyLess;
    forall i | 0 <= i < |kept| ensures KeyLess(TimingKey(kept[i]), TimingKey(row)) {
      assert kept[i] in before;
      if i < |kept| - 1 {
        KeyLessTransitive(TimingKey(kept[i]), TimingKey(kept[|kept| - 1]), TimingKey(row));
      }
    }
    forall r | r in before + [row] ensures Tops(kept + [row], r) {
      if r in before {
        TopsMore(kept, row, r);
      } else {
        assert row in kept + [row];
      }
    }
  }

  /** On sorted rows, dropping repeats condenses them. */
  lemma {:induction false} DropRepeatsOfSorted(rows: seq<Timing>)
    requires Ascending(rows, RowLessEq)
    ensures Condenses(DropRepeats(rows), rows)
  {
    hide KeyLess, Condenses;
    if rows == [] {
      NothingToCondense();
    } else {
      var before, row := rows[..|rows| - 1], rows[|rows| - 1];
      var kept := DropRepeats(before);
      DropRepeatsOfSorted(before);
      assert rows == before + [row];
      LastKept(kept, before);
      if before != [] && TimingKey(kept[|kept| - 1]) == TimingKey(row) {
        LastKeptIsOlder(kept, before);
        TopsItsKey(rows, kept[|kept| - 1]);
        DropRepeat(kept, before, row);
      } else {
        assert before != [] ==> RowLessEq(before[|before| - 1], row);
        AppendNewKey(kept, before, row);
      }
    }
  }

  lemma NothingToCondense()
    ensures Condenses([], [])
  {
  }

  lemma LastKept(kept: seq<Timing>, rows: seq<Timing>)
    requires Condenses(kept, rows)
    ensures rows == [] ==> kept == []
    ensures rows != [] ==> (kept != [] && TimingKey(kept[|kept| - 1]) == TimingKey(rows[|rows| - 1]))
  {
    if kept != [] {
      assert kept[0] in rows;
    }
  }

  lemma LastKeptIsOlder(kept: seq<Timing>, before: seq<Timing>)
    requires Condenses(kept, before) && kept != []
    ensures kept[|kept| - 1] in before
  {
  }

  lemma DropRepeat(kept: seq<Timing>, before: seq<Timing>, row: Timing)
    requires Condenses(kept, before) && kept != [] && TimingKey(kept[|kept| - 1]) == TimingKey(row)
    requires kept[|kept| - 1].seconds >= row.seconds
    ensures Condenses(kept, before + [row])
  {
    hide KeyLess, KeysAscend, TimingKey;
    assert kept[|kept| - 1] in kept;
    assert Tops(kept, row);
  }

  /** A row of sorted rows is at least as long as any later row with its key. */
  lemma TopsItsKey(rows: seq<Timing>, top: Timing)
    requires Ascending(rows, RowLessEq) && rows != [] && top in rows[..|rows| - 1]
    requires TimingKey(top) == TimingKey(rows[|rows| - 1])
    ensures top.seconds >= rows[|rows| - 1].seconds
  {
    var i :| 0 <= i < |rows| - 1 && rows[..|rows| - 1][i] == top;
    assert RowLessEq(rows[i], rows[|rows| - 1]);
    KeyLessTotal(TimingKey(top), TimingKey(top));
  }

  // ---- The report, and what it means ----

  function Retain(rows: seq<Timing>): seq<Timing> {
    if rows == [] then []
    else (if rows[0].resourceType != "" then [rows[0]] else []) + Retain(rows[1..])
  }

  function Report(rows: seq<Timing>): seq<Timing> {
    DropRepeats(StableSort(Retain(rows), RowLessEq))
  }

  function Total(rows: seq<Timing>): real {
    if rows == [] then 0.0
    else (if rows[0].resourceType != DEPLOYMENTS then rows[0].seconds else 0.0) + Total(rows[1..])
  }

  /** Longest duration of the rows with `key`; 0 without any. */
  function Longest(rows: seq<Timing>, key: Key): real {
    if rows == [] then 0.0
    else if TimingKey(rows[0]) != key then Longest(rows[1..], key)
    else if HasKey(rows[1..], key) then Max(rows[0].seconds, Longest(rows[1..], key))
    else rows[0].seconds
  }

  function Max(a: real, b: real): real {
    if a >= b then a else b
  }

  predicate HasKey(rows: seq<Timing>, key: Key) {
    exists r :: r in rows && TimingKey(r) == key
  }

  lemma {:induction false} RetainKeeps(rows: seq<Timing>)
    ensures forall r :: r in Retain(rows) <==> r in rows && r.resourceType != ""
  {
    if rows != [] {
      RetainKeeps(rows[1..]);
    }
  }

  lemma {:induction false} LongestIsMax(rows: seq<Timing>, key: Key)
    ensures forall r :: r in rows && TimingKey(r) == key ==> r.seconds <= Longest(rows, key)
    ensures HasKey(rows, key) ==> exists r :: r in rows && TimingKey(r) == key && r.seconds == Longest(rows, key)
  {
    if rows != [] {
      LongestIsMax(rows[1..], key);
      assert rows[0] in rows;
      if HasKey(rows, key) && !HasKey(rows[1..], key) {
        var r :| r in rows && TimingKey(r) == key;
        assert r == rows[0];
      }
    }
  }

  lemma ReportCondenses(rows: seq<Timing>)
    ensures exists sorted :: Condenses(Report(rows), sorted)
                             && forall r :: r in sorted <==> r in rows && r.resourceType != ""
  {
    hide KeyLess, RowLessEq, DropRepeats, StableSort, Retain, Condenses;
    RowsTotal();
    RetainKeeps(rows);
    StableSortOrders(Retain(rows), RowLessEq);
    var sorted := StableSort(Retain(rows), RowLessEq);
    DropRepeatsOfSorted(sorted);
    assert Condenses(Report(rows), sorted);
  }

  /** One row per key of the collected rows that have a type, and its duration is the longest seen. */
  lemma ReportKeepsLongest(rows: seq<Timing>)
    ensures KeysAscend(Report(rows))
    ensures forall r :: r in Report(rows) ==>
              r in rows && r.resourceType != "" && r.seconds == Longest(rows, TimingKey(r))
    ensures forall key :: HasKey(Report(rows), key) <==> HasKey(rows, key) && key.resourceType != ""
  {
    hide KeyLess, Report, Longest;
    ReportCondenses(rows);
    var sorted :| Condenses(Report(rows), sorted) && forall r :: r in sorted <==> r in rows && r.resourceType != "";
    forall r | r in Report(rows) ensures r.seconds == Longest(rows, TimingKey(r)) {
      LongestKept(rows, Report(rows), sorted, r);
    }
    forall key ensures HasKey(Report(rows), key) <==> HasKey(rows, key) && key.resourceType != "" {
      if HasKey(rows, key) && key.resourceType != "" {
        var r :| r in rows && TimingKey(r) == key;
        assert r in sorted && Tops(Report(rows), r);
      }
    }
  }

  lemma LongestKept(rows: seq<Timing>, report: seq<Timing>, sorted: seq<Timing>, r: Timing)
    requires Condenses(report, sorted) && r in report
    requires forall t :: t in sorted <==> t in rows && t.resourceType != ""
    ensures r.seconds == Longest(rows, TimingKey(r))
  {
    hide KeyLess, Longest;
    var key := TimingKey(r);
    LongestIsMax(rows, key);
    assert r in sorted && r in rows && HasKey(rows, key);
    var top :| top in rows && TimingKey(top) == key && top.seconds == Longest(rows, key);
    assert top in sorted && Tops(report, top);
    var kept :| kept in report && TimingKey(kept) == key && kept.seconds >= top.seconds;
    OneRowPerKey(report, r, kept);
    assert r.seconds <= Longest(rows, key);
  }

  lemma OneRowPerKey(rows: seq<Timing>, a: Timing, b: Timing)
    requires KeysAscend(rows) && a in rows && b in rows && TimingKey(a) == TimingKey(b)
    ensures a == b
  {
    hide KeyLess;
    var i :| 0 <= i < |rows| && rows[i] == a;
    var j :| 0 <= j < |rows| && rows[j] == b;
    KeyLessTotal(TimingKey(a), TimingKey(b));
  }

  // ---- The total ----

  /** The keys of the resources that count towards the total. */
  function CountedKeys(rows: seq<Timing>): set<Key> {
    set r | r in rows && r.resourceType != "" && r.resourceType != DEPLOYMENTS :: TimingKey(r)
  }

  /** Sum over a set of keys of the longest duration seen for each. */
  ghost function SumLongest(keys: set<Key>, rows: seq<Timing>): real {
    if keys == {} then 0.0
    else
      var key :| key in keys;
      Longest(rows, key) + SumLongest(keys - {key}, rows)
  }

  /** The sum does not depend on the order the keys are taken in. */
  lemma {:induction false} SumLongestWithout(keys: set<Key>, rows: seq<Timing>, key: Key)
    requires key in keys
    ensures SumLongest(keys, rows) == Longest(rows, key) + SumLongest(keys - {key}, rows)
    decreases |keys|
  {
    hide Longest;
    var first :| first in keys && SumLongest(keys, rows) == Longest(rows, first) + SumLongest(keys - {first}, rows);
    if first != key {
      SumLongestWithout(keys - {first}, rows, key);
      SumLongestWithout(keys - {key}, rows, first);
      assert keys - {first} - {key} == keys - {key} - {first};
    }
  }

  lemma {:induction false} TotalIsSum(report: seq<Timing>, rows: seq<Timing>)
    requires KeysAscend(report)
    requires forall r :: r in report ==> r.resourceType != "" && r.seconds == Longest(rows, TimingKey(r))
    ensures Total(report) == SumLongest(CountedKeys(report), rows)
  {
    hide KeyLess, Longest;
    if report == [] {
      assert CountedKeys(report) == {};
    } else {
      var r, rest := report[0], report[1..];
      assert r in report;
      TotalIsSum(rest, rows);
      FirstKeyIsNew(report);
      if r.resourceType != DEPLOYMENTS {
        assert CountedKeys(report) - {TimingKey(r)} == CountedKeys(rest);
        SumLongestWithout(CountedKeys(report), rows, TimingKey(r));
      } else {
        assert CountedKeys(report) == CountedKeys(rest);
      }
    }
  }

  lemma FirstKeyIsNew(report: seq<Timing>)
    requires KeysAscend(report) && report != []
    ensures TimingKey(report[0]) !in CountedKeys(report[1..])
    ensures CountedKeys(report) == CountedKeys(report[1..])
              + (if report[0].resourceType == "" || report[0].resourceType == DEPLOYMENTS then {}
                 else {TimingKey(report[0])})
  {
    hide KeyLess;
    var r, rest := report[0], report[1..];
    forall t | t in rest ensures TimingKey(t) != TimingKey(r) {
      var i :| 0 <= i < |rest| && rest[i] == t;
      assert KeyLess(TimingKey(report[0]), TimingKey(report[i + 1]));
      KeyLessTotal(TimingKey(r), TimingKey(r));
    }
    forall t ensures t in report <==> t == r || t in rest {
      assert report == [r] + rest;
    }
  }

  /**
   The total of a report is the sum, over the collected keys that are not deployments, of the longest
   duration of each.
   */
  lemma TotalOfReport(rows: seq<Timing>)
    ensures Total(Report(rows)) == SumLongest(CountedKeys(rows), rows)
  {
    hide Report, Longest, Total, SumLongest;
    ReportKeepsLongest(rows);
    TotalIsSum(Report(rows), rows);
    assert CountedKeys(Report(rows)) == CountedKeys(rows) by {
      forall key ensures key in CountedKeys(Report(rows)) <==> key in CountedKeys(rows) {
        assert key in CountedKeys(rows) <==>
              HasKey(rows, key) && key.resourceType != "" && key.resourceType != DEPLOYMENTS;
        assert key in CountedKeys(Report(rows)) <==>
              HasKey(Report(rows), key) && key.resourceType != "" && key.resourceType != DEPLOYMENTS;
      }
    }
  }

  // ---- Independence of the collection order ----

  lemma LongestByMembers(a: seq<Timing>, b: seq<Timing>, key: Key)
    requires forall r :: r in a <==> r in b
    ensures Longest(a, key) == Longest(b, key)
  {
    hide Longest;
    LongestIsMax(a, key);
    LongestIsMax(b, key);
    if HasKey(a, key) {
      var r :| r in a && TimingKey(r) == key && r.seconds == Longest(a, key);
      var s :| s in b && TimingKey(s) == key && s.seconds == Longest(b, key);
    } else {
      NoKey(a, key);
      NoKey(b, key);
    }
  }

  lemma {:induction false} NoKey(rows: seq<Timing>, key: Key)
    requires !HasKey(rows, key)
    ensures Longest(rows, key) == 0.0
  {
    if rows != [] {
      assert rows[0] in rows;
      forall r | r in rows[1..] ensures TimingKey(r) != key {
        assert r in rows;
      }
      NoKey(rows[1..], key);
    }
  }

  /** Two reports with the same keys list them in the same places. */
  lemma {:induction false} SamePlaces(a: seq<Timing>, b: seq<Timing>)
    requires KeysAscend(a) && KeysAscend(b)
    requires forall key :: HasKey(a, key) <==> HasKey(b, key)
    ensures |a| == |b| && forall i :: 0 <= i < |a| ==> TimingKey(a[i]) == TimingKey(b[i])
  {
    hide KeyLess;
    if a == [] {
      if b != [] {
        FirstKey(b);
      }
    } else {
      assert a[0] in a && HasKey(a, TimingKey(a[0]));
      assert b != [];
      assert b[0] in b && HasKey(b, TimingKey(b[0]));
      LeastKey(a, TimingKey(b[0]));
      LeastKey(b, TimingKey(a[0]));
      KeyLessTotal(TimingKey(a[0]), TimingKey(b[0]));
      forall key ensures HasKey(a[1..], key) <==> HasKey(b[1..], key) {
        RestKeys(a, key);
        RestKeys(b, key);
      }
      SamePlaces(a[1..], b[1..]);
    }
  }

  lemma FirstKey(rows: seq<Timing>)
    requires rows != []
    ensures HasKey(rows, TimingKey(rows[0]))
  {
    assert rows[0] in rows;
  }

  lemma LeastKey(rows: seq<Timing>, key: Key)
    requires KeysAscend(rows) && HasKey(rows, key)
    ensures rows != [] && (TimingKey(rows[0]) == key || KeyLess(TimingKey(rows[0]), key))
  {
    var r :| r in rows && TimingKey(r) == key;
    var i :| 0 <= i < |rows| && rows[i] == r;
  }

  lemma RestKeys(rows: seq<Timing>, key: Key)
    requires KeysAscend(rows) && rows != []
    ensures HasKey(rows[1..], key) <==> HasKey(rows, key) && key != TimingKey(rows[0])
  {
    hide KeyLess;
    KeyLessTotal(key, key);
    if HasKey(rows[1..], key) {
      var r :| r in rows[1..] && TimingKey(r) == key;
      var i :| 0 <= i < |rows[1..]| && rows[1..][i] == r;
      assert rows[i + 1] == r && KeyLess(TimingKey(rows[0]), TimingKey(rows[i + 1]));
    }
    if HasKey(rows, key) && key != TimingKey(rows[0]) {
      var r :| r in rows && TimingKey(r) == key;
      var i :| 0 <= i < |rows| && rows[i] == r;
      assert rows[1..][i - 1] == r;
    }
  }

  /** The order rows are collected in changes neither the keys nor the durations nor the total of the report. */
  lemma ReportIgnoresOrder(a: seq<Timing>, b: seq<Timing>)
    requires forall r :: r in a <==> r in b
    ensures |Report(a)| == |Report(b)|
    ensures forall i :: 0 <= i < |Report(a)| ==>
              TimingKey(Report(a)[i]) == TimingKey(Report(b)[i]) && Report(a)[i].seconds == Report(b)[i].seconds
    ensures Total(Report(a)) == Total(Report(b))
  {
    hide Report, Longest, Total, KeysAscend;
    ReportKeepsLongest(a);
    ReportKeepsLongest(b);
    SamePlaces(Report(a), Report(b));
    forall i | 0 <= i < |Report(a)| ensures Report(a)[i].seconds == Report(b)[i].seconds {
      assert Report(a)[i] in Report(a) && Report(b)[i] in Report(b);
      LongestByMembers(a, b, TimingKey(Report(a)[i]));
    }
    SameTotal(Report(a), Report(b));
  }

  lemma {:induction false} SameTotal(a: seq<Timing>, b: seq<Timing>)
    requires |a| == |b|
    requires forall i :: 0 <= i < |a| ==> TimingKey(a[i]) == TimingKey(b[i]) && a[i].seconds == b[i].seconds
    ensures Total(a) == Total(b)
  {
    if a != [] {
      SameTotal(a[1..], b[1..]);
    }
  }

  /** The state shown for a resource does depend on it: of two equally long rows the first collected wins. */
  lemma StateDependsOnOrder(a: Timing, b: Timing)
    requires a.resourceType != "" && TimingKey(a) == TimingKey(b) && a.seconds == b.seconds
    ensures Report([a, b]) == [a] && Report([b, a]) == [b]
  {
    FirstOfTwo(a, b);
    FirstOfTwo(b, a);
  }

  lemma FirstOfTwo(a: Timing, b: Timing)
    requires a.resourceType != "" && TimingKey(a) == TimingKey(b) && a.seconds == b.seconds
    ensures Report([a, b]) == [a]
  {
    assert [a, b][1..] == [b] && [b][1..] == [];
    assert Retain([b]) == [b] && Retain([a, b]) == [a, b];
    assert StableSort([b], RowLessEq) == [b];
    assert StableSort([a, b], RowLessEq) == [a, b];
    assert [a, b][..1] == [a] && [a][..0] == [];
    assert DropRepeats([a]) == [a];
  }

  // ---- The whole capture ----

  /** Walks the tree, keeps rows with a type, sorts, removes repeats, sums. A failed root listing reports nothing. */
  method Capture(arm: Arm, deployment: string, ghost rank: Node -> nat) returns (operations: seq<Timing>, total: real)
    requires Ranked(arm, rank)
    ensures operations == Report(Walk(arm, Node(Subscription, deployment), rank))
    ensures total == Total(operations)
  {
    var collected := CollectSubOperations(arm, deployment, rank);
    operations := Retain(collected.GetOr([]));
    operations := StableSort(operations, RowLessEq);
    operations := DedupBy(operations);
    total := Total(operations);
  }

  /**
   On a well-kept tree the capture reports exactly the resources the progress walk reports,
   although one removes duplicates last and the other first.
   */
  lemma CaptureReportsTheProgressTree(arm: Arm, deployment: string, rank: Node -> nat, key: Key)
    requires Ranked(arm, rank) && WellKept(arm)
    ensures var root := Node(Subscription, deployment);
            HasKey(Report(Walk(arm, root, rank)), key) <==> ProgressHas(arm, root, 0, rank, key)
  {
    hide Report, Walk, Flatten, Forest;
    var root := Node(Subscription, deployment);
    var rows := Walk(arm, root, rank);
    ReportKeepsLongest(rows);
    WalksAgree(arm, root, 0, rank, key);
    assert HasKey(rows, key) <==> WalkHas(arm, root, rank, key) by {
      assert forall t :: Walked(arm, root, rank, t) <==> t in rows;
    }
    if ProgressHas(arm, root, 0, rank, key) {
      ReportedHasType(arm, root, 0, rank, key);
    }
  }

  lemma ReportedHasType(arm: Arm, node: Node, level: nat, rank: Node -> nat, key: Key)
    requires Ranked(arm, rank) && WellKept(arm) && ProgressHas(arm, node, level, rank, key)
    ensures key.resourceType != ""
  {
    hide Reported, DedupOps, Nests;
    var e :| Reported(arm, node, level, rank, e) && EntryKey(e) == key;
    ReportsExactlyTheTree(arm, node, level, rank, e);
    var lister, steps: nat :| ListedAt(arm, node, level, e, lister, steps);
    DedupSubset(arm[lister]);
    assert Canonical(e.op);
  }
}
