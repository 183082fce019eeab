/** Which rows a report keeps, and when the order they were collected in makes a difference. */
module ReportOrder {
  import opened Operations
  import opened Sorting
  import opened TimingReport
  import opened WalkAgreement

  lemma {:induction false} AlikeConcat(s: seq<Timing>, t: seq<Timing>, x: Timing)
    ensures Alike(s + t, x, RowLessEq) == Alike(s, x, RowLessEq) + Alike(t, x, RowLessEq)
  {
    hide RowLessEq, Alike;
    if s == [] {
      assert s + t == t;
      NothingAlike(x);
    } else {
      AlikeConcat(s[1..], t, x);
      assert (s + t)[1..] == s[1..] + t;
      AlikeStep(s, x);
      AlikeStep(s + t, x);
    }
  }

  lemma NothingAlike(x: Timing)
    ensures Alike([], x, RowLessEq) == []
  {
  }

  lemma AlikeStep(s: seq<Timing>, x: Timing)
    requires s != []
    ensures Alike(s, x, RowLessEq) ==
            (if RowLessEq(s[0], x) && RowLessEq(x, s[0]) then [s[0]] else []) + Alike(s[1..], x, RowLessEq)
  {
    hide RowLessEq;
  }

  /** Rows alike have one key and one duration. */
  lemma AlikeRows(a: Timing, b: Timing)
    ensures RowLessEq(a, b) && RowLessEq(b, a) <==> TimingKey(a) == TimingKey(b) && a.seconds == b.seconds
  {
    hide KeyLess;
    KeyLessTotal(TimingKey(a), TimingKey(b));
  }

  lemma {:induction false} NoneAlike(s: seq<Timing>, x: Timing)
    requires forall i :: 0 <= i < |s| ==> TimingKey(s[i]) != TimingKey(x)
    ensures Alike(s, x, RowLessEq) == []
  {
    hide RowLessEq, TimingKey;
    if s != [] {
      AlikeRows(s[0], x);
      NoneAlike(s[1..], x);
    }
  }

  /** Before a row whose key is new, no row has its key. */
  lemma NewKeyIsNew(before: seq<Timing>, row: Timing)
    requires Ascending(before + [row], RowLessEq) && before != []
    requires TimingKey(before[|before| - 1]) != TimingKey(row)
    ensures forall i :: 0 <= i < |before| ==> TimingKey(before[i]) != TimingKey(row)
  {
    hide KeyLess;
    var rows, n := before + [row], |before|;
    assert RowLessEq(rows[n - 1], rows[n]);
    forall i | 0 <= i < n ensures TimingKey(before[i]) != TimingKey(row) {
      if i < n - 1 {
        assert RowLessEq(rows[i], rows[n - 1]);
        KeyLessTotal(TimingKey(before[i]), TimingKey(row));
        if KeyLess(TimingKey(before[i]), TimingKey(before[n - 1])) {
          KeyLessTransitive(TimingKey(before[i]), TimingKey(before[n - 1]), TimingKey(row));
        }
      }
    }
  }

  lemma KeptOfMore(rows: seq<Timing>, r: Timing)
    requires r in DropRepeats(rows)
    ensures rows != []
    ensures var before, row := rows[..|rows| - 1], rows[|rows| - 1];
            r !in DropRepeats(before) ==>
              && r == row
              && (|| DropRepeats(before) == []
                  || TimingKey(DropRepeats(before)[|DropRepeats(before)| - 1]) != TimingKey(row))
  {
    hide TimingKey;
  }

  lemma FirstAlikeStays(before: seq<Timing>, row: Timing, r: Timing)
    requires Alike(before, r, RowLessEq) != [] && Alike(before, r, RowLessEq)[0] == r
    ensures Alike(before + [row], r, RowLessEq) != [] && Alike(before + [row], r, RowLessEq)[0] == r
  {
    hide Alike;
    AlikeConcat(before, [row], r);
  }

  lemma FirstAlikeIsNew(before: seq<Timing>, row: Timing)
    requires forall i :: 0 <= i < |before| ==> TimingKey(before[i]) != TimingKey(row)
    ensures Alike(before + [row], row, RowLessEq) == [row]
  {
    hide Alike;
    AlikeConcat(before, [row], row);
    NoneAlike(before, row);
    OnlyAlike(row);
  }

  lemma RowsBeforeNew(before: seq<Timing>, row: Timing)
    requires Ascending(before + [row], RowLessEq)
    requires var kept := DropRepeats(before); kept == [] || TimingKey(kept[|kept| - 1]) != TimingKey(row)
    ensures forall i :: 0 <= i < |before| ==> TimingKey(before[i]) != TimingKey(row)
  {
    hide RowLessEq, Condenses, DropRepeats;
    AscendingBefore(before, row);
    DropRepeatsOfSorted(before);
    LastKept(DropRepeats(before), before);
    if before != [] {
      NewKeyIsNew(before, row);
    }
  }

  lemma AscendingBefore(before: seq<Timing>, row: Timing)
    requires Ascending(before + [row], RowLessEq)
    ensures Ascending(before, RowLessEq)
  {
    hide RowLessEq;
    var rows := before + [row];
    forall i, j | 0 <= i < j < |before| ensures RowLessEq(before[i], before[j]) {
      assert rows[i] == before[i] && rows[j] == before[j];
    }
  }

  /** Of sorted rows, dropping repeats keeps the first of those alike. */
  lemma {:induction false} KeptIsFirstAlike(rows: seq<Timing>, r: Timing)
    requires Ascending(rows, RowLessEq) && r in DropRepeats(rows)
    ensures Alike(rows, r, RowLessEq) != [] && Alike(rows, r, RowLessEq)[0] == r
  {
    hide RowLessEq, TimingKey, Alike, DropRepeats, Ascending;
    KeptOfMore(rows, r);
    var before, row := rows[..|rows| - 1], rows[|rows| - 1];
    assert rows == before + [row];
    AscendingBefore(before, row);
    if r in DropRepeats(before) {
      KeptIsFirstAlike(before, r);
      FirstAlikeStays(before, row, r);
    } else {
      RowsBeforeNew(before, row);
      FirstAlikeIsNew(before, row);
    }
  }

  lemma OnlyAlike(x: Timing)
    ensures Alike([x], x, RowLessEq) == [x]
  {
    AlikeRows(x, x);
    assert [x][1..] == [];
  }

  /** Rows with a type, one key and one duration, in the order they were collected. */
  function Rivals(rows: seq<Timing>, r: Timing): seq<Timing> {
    Alike(Retain(rows), r, RowLessEq)
  }

  /** A report keeps, of the longest rows of a key, the one that was collected first. */
  lemma KeepsFirstCollected(rows: seq<Timing>)
    ensures forall r :: r in Report(rows) ==>
              r.seconds == Longest(rows, TimingKey(r)) && Rivals(rows, r) != [] && Rivals(rows, r)[0] == r
  {
    hide RowLessEq, Condenses, KeysAscend, TimingKey, DropRepeats, Retain, StableSort, Alike;
    ReportKeepsLongest(rows);
    RowsTotal();
    StableSortOrders(Retain(rows), RowLessEq);
    forall r | r in Report(rows) ensures Rivals(rows, r) != [] && Rivals(rows, r)[0] == r {
      KeptIsFirstAlike(StableSort(Retain(rows), RowLessEq), r);
      StableSortKeepsOrder(Retain(rows), r, RowLessEq);
    }
  }

  /** Two different rows with a type share a key and both carry its longest duration. */
  ghost predicate Tied(rows: seq<Timing>, r: Timing, s: Timing) {
    && r in rows && s in rows && r != s && r.resourceType != ""
    && TimingKey(r) == TimingKey(s) && r.seconds == s.seconds == Longest(rows, TimingKey(r))
  }

  ghost predicate Reordered(a: seq<Timing>, b: seq<Timing>) {
    multiset(a) == multiset(b)
  }

  lemma SameMembers(a: seq<Timing>, b: seq<Timing>)
    requires Reordered(a, b)
    ensures forall r :: r in a <==> r in b
  {
    forall r ensures r in a <==> r in b {
      assert r in a <==> r in multiset(a);
      assert r in b <==> r in multiset(b);
    }
  }

  lemma MoveToFront(rows: seq<Timing>, r: Timing) returns (front: seq<Timing>)
    requires r in rows
    ensures Reordered(front, rows) && front != [] && front[0] == r
  {
    var i :| 0 <= i < |rows| && rows[i] == r;
    front := [r] + rows[..i] + rows[i + 1..];
    assert rows == rows[..i] + [r] + rows[i + 1..];
  }

  /** A longest row that was collected first is in the report. */
  lemma FirstIsKept(rows: seq<Timing>, r: Timing)
    requires rows != [] && rows[0] == r && r.resourceType != "" && r.seconds == Longest(rows, TimingKey(r))
    ensures r in Report(rows)
  {
    hide RowLessEq, KeysAscend, TimingKey, Report, StableSort;
    KeepsFirstCollected(rows);
    ReportKeepsLongest(rows);
    assert HasKey(rows, TimingKey(r));
    assert TimingKey(r).resourceType != "" by { TypeOfKey(r); }
    var kept :| kept in Report(rows) && TimingKey(kept) == TimingKey(r);
    AlikeRows(r, kept);
    assert Retain(rows)[0] == r;
    assert Rivals(rows, kept)[0] == r;
  }

  lemma TypeOfKey(r: Timing)
    ensures TimingKey(r).resourceType == r.resourceType
  {
  }

  /** With two tied rows, some order of the same rows makes another report. */
  lemma TieMatters(rows: seq<Timing>, r: Timing, s: Timing) returns (other: seq<Timing>)
    requires Tied(rows, r, s)
    ensures Reordered(other, rows) && Report(other) != Report(rows)
  {
    hide RowLessEq, KeysAscend, Report, Longest;
    var a := MoveToFront(rows, r);
    var b := MoveToFront(rows, s);
    SameMembers(a, rows);
    SameMembers(b, rows);
    LongestByMembers(a, rows, TimingKey(r));
    LongestByMembers(b, rows, TimingKey(r));
    FirstIsKept(a, r);
    FirstIsKept(b, s);
    ReportKeepsLongest(a);
    if Report(a) == Report(b) {
      OneRowPerKey(Report(a), r, s);
      assert false;
    }
    other := if Report(a) == Report(rows) then b else a;
  }

  lemma NoTieNoMatter(a: seq<Timing>, b: seq<Timing>)
    requires Reordered(a, b) && forall r, s :: !Tied(a, r, s)
    ensures Report(a) == Report(b)
  {
    hide KeysAscend, Report, Longest, TimingKey;
    SameMembers(a, b);
    ReportIgnoresOrder(a, b);
    ReportKeepsLongest(a);
    ReportKeepsLongest(b);
    forall i | 0 <= i < |Report(a)| ensures Report(a)[i] == Report(b)[i] {
      var r, s := Report(a)[i], Report(b)[i];
      assert r in Report(a) && s in Report(b);
      assert !Tied(a, r, s);
    }
  }

  /** The report of a list of rows is the same for every order of them exactly when no two of its rows are tied. */
  lemma OrderMattersExactly(rows: seq<Timing>)
    ensures (forall other :: Reordered(other, rows) ==> Report(other) == Report(rows)) <==>
              (forall r, s :: !Tied(rows, r, s))
  {
    hide Report, Tied;
    if r, s :| Tied(rows, r, s) {
      var other := TieMatters(rows, r, s);
    } else {
      forall other | Reordered(other, rows) ensures Report(other) == Report(rows) {
        NoTieNoMatter(rows, other);
      }
    }
  }
}
