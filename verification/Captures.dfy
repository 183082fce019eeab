/** Listing the timing captures of a cluster, newest first. */
module Captures {
  import opened Calendar
  import opened Sorting
  import opened Stamps
  import opened TextOrder
  import opened Wrappers

  /** A timing file; `at` is the second it was captured. The other fields ride along unread. */
  datatype Capture = Capture(at: u64)

  /** A directory entry; the body is None when the file cannot be read or parsed. */
  datatype Entry = Entry(name: string, body: Option<Capture>)

  function LastDot(name: string): (i: int)
    ensures -1 <= i < |name|
    ensures 0 <= i ==> name[i] == '.'
  {
    if name == "" then -1
    else if name[|name| - 1] == '.' then |name| - 1
    else LastDot(name[..|name| - 1])
  }

  /** The extension is what follows the last dot, unless the name starts with it. */
  predicate IsJson(name: string) {
    LastDot(name) > 0 && name[LastDot(name) + 1..] == "json"
  }

  lemma {:induction false} ExtensionFollowsStem(stem: string, extension: string)
    requires '.' !in extension
    ensures LastDot(stem + "." + extension) == |stem|
    decreases |extension|
  {
    var name := stem + "." + extension;
    if extension != "" {
      var shorter := extension[..|extension| - 1];
      ExtensionFollowsStem(stem, shorter);
      assert name[..|name| - 1] == stem + "." + shorter;
      assert name[|name| - 1] == extension[|extension| - 1];
    }
  }

  /** A name is that of a json file exactly when something comes before its final `.json`. */
  lemma JsonExactly(name: string)
    ensures IsJson(name) <==> exists stem :: stem != "" && name == stem + ".json"
  {
    hide IsJson;
    if IsJson(name) {
      var stem := StemOfJson(name);
    }
    forall stem | stem != "" && name == stem + ".json" ensures IsJson(name) {
      JsonBehindStem(stem);
    }
  }

  lemma StemOfJson(name: string) returns (stem: string)
    requires IsJson(name)
    ensures stem != "" && name == stem + ".json"
  {
    hide LastDot;
    var i := LastDot(name);
    stem := name[..i];
    assert name == stem + name[i..] && name[i..] == ['.'] + name[i + 1..];
    assert ['.'] + "json" == ".json";
  }

  lemma JsonBehindStem(stem: string)
    requires stem != ""
    ensures IsJson(stem + ".json")
  {
    hide LastDot;
    ExtensionFollowsStem(stem, "json");
    assert stem + "." + "json" == stem + ("." + "json");
    assert "." + "json" == ".json";
    assert (stem + "." + "json")[|stem| + 1..] == "json";
  }

  function OnlyJson(entries: seq<Entry>): seq<Entry> {
    if entries == [] then []
    else (if IsJson(entries[0].name) then [entries[0]] else []) + OnlyJson(entries[1..])
  }

  function Reverse<T>(s: seq<T>): (r: seq<T>)
    ensures |r| == |s| && forall i :: 0 <= i < |s| ==> r[i] == s[|s| - 1 - i]
  {
    if s == [] then [] else Reverse(s[1..]) + [s[0]]
  }

  predicate NameLessEq(a: Entry, b: Entry) {
    LessEq(a.name, b.name)
  }

  /** The entries in the order they are read. */
  function NewestFirst(entries: seq<Entry>, last: nat): seq<Entry> {
    var names := Reverse(StableSort(OnlyJson(entries), NameLessEq));
    if last == 0 || |names| <= last then names else names[..last]
  }

  /** A missing directory lists nothing; the first unreadable file fails the listing. */
  method ListForCluster(directory: Option<seq<Entry>>, last: nat) returns (r: Result<seq<Capture>, string>)
    ensures directory.None? ==> r == Ok([])
    ensures directory.Some? ==>
      var chosen := NewestFirst(directory.value, last);
      match r
      case Ok(out) => |out| == |chosen| && forall i :: 0 <= i < |out| ==> chosen[i].body == Some(out[i])
      case Err(name) => exists i :: 0 <= i < |chosen| && chosen[i].body.None? && chosen[i].name == name
                                    && forall j :: 0 <= j < i ==> chosen[j].body.Some?
  {
    if directory.None? {
      return Ok([]);
    }
    var entries := NewestFirst(directory.value, last);
    var out := [];
    for i := 0 to |entries|
      invariant |out| == i && forall j :: 0 <= j < i ==> entries[j].body == Some(out[j])
    {
      match entries[i].body
      case None => return Err(entries[i].name);
      case Some(c) => out := out + [c];
    }
    return Ok(out);
  }

  function CaptureName(at: u64): string
    requires InRange(at)
  {
    Render(Fields(at), CAPTURE) + ".json"
  }

  /** A capture's file is one the listing reads. */
  lemma CapturesAreJson(at: u64)
    requires InRange(at)
    ensures IsJson(CaptureName(at))
  {
    var stem := Render(Fields(at), CAPTURE);
    ExtensionFollowsStem(stem, "json");
    assert stem + "." + "json" == CaptureName(at);
    assert CaptureName(at)[|stem| + 1..] == "json";
    StampNotEmpty(at);
  }

  lemma StampNotEmpty(at: u64)
    requires InRange(at)
    ensures Render(Fields(at), CAPTURE) != ""
  {
    hide Pad, Width, Fields;
    var f := Fields(at);
    assert f == [f[0]] + f[1..] && CAPTURE == [CAPTURE[0]] + CAPTURE[1..];
    RenderStep(f[0], f[1..], CAPTURE[0], CAPTURE[1..]);
    assert CAPTURE[0] == "-";
  }

  ghost predicate NamedByStamp(e: Entry) {
    && e.body.Some?
    && e.body.value.at as int < YEAR_10000
    && InRange(e.body.value.at)
    && e.name == CaptureName(e.body.value.at)
  }

  /** Capture files carry the stamp of their capture; other files (the trend table) are anything else. */
  ghost predicate StampNamed(entries: seq<Entry>) {
    forall e :: e in entries && IsJson(e.name) ==> NamedByStamp(e)
  }

  /** A directory holds each name once. */
  ghost predicate DistinctNames(entries: seq<Entry>) {
    forall i, j :: 0 <= i < j < |entries| ==> entries[i].name != entries[j].name
  }

  lemma {:induction false} OnlyJsonKeeps(entries: seq<Entry>)
    ensures forall e :: e in OnlyJson(entries) <==> e in entries && IsJson(e.name)
    ensures DistinctNames(entries) ==> DistinctNames(OnlyJson(entries))
  {
    if entries != [] {
      OnlyJsonKeeps(entries[1..]);
      if DistinctNames(entries) {
        forall e | e in OnlyJson(entries[1..]) ensures e.name != entries[0].name {
          var i :| 0 <= i < |entries[1..]| && entries[1..][i] == e;
          assert entries[i + 1] == e;
        }
      }
    }
  }

  lemma NamesTotal()
    ensures TotalPreorder(NameLessEq)
  {
    forall a: Entry, b: Entry ensures NameLessEq(a, b) || NameLessEq(b, a) {
      LessTotal(a.name, b.name);
    }
    forall a: Entry, b: Entry, c: Entry | NameLessEq(a, b) && NameLessEq(b, c) ensures NameLessEq(a, c) {
      if a.name != b.name && b.name != c.name {
        LessTransitive(a.name, b.name, c.name);
      }
    }
  }

  lemma SameSuffix(a: string, b: string, suffix: string)
    requires |a| == |b|
    ensures Less(a + suffix, b + suffix) <==> Less(a, b)
    ensures a + suffix == b + suffix <==> a == b
  {
    LessConcat(a, b, suffix, suffix);
    LessTotal(suffix, suffix);
    LessTotal(a + suffix, b + suffix);
    LessTotal(a, b);
    LessConcat(b, a, suffix, suffix);
  }

  /** Between two capture files, name order decides which is older. */
  lemma NameOrderIsTimeOrder(a: Entry, b: Entry)
    requires NamedByStamp(a) && NamedByStamp(b)
    requires NameLessEq(a, b) && a != b
    ensures a.body.value.at < b.body.value.at
  {
    var t, u := a.body.value.at, b.body.value.at;
    StampOrderIsTimeOrder(t, u, CAPTURE);
    SameSuffix(Render(Fields(t), CAPTURE), Render(Fields(u), CAPTURE), ".json");
  }

  lemma SortedByAge(entries: seq<Entry>)
    requires StampNamed(entries) && DistinctNames(entries)
    ensures var s := StableSort(OnlyJson(entries), NameLessEq);
            && |s| == |OnlyJson(entries)|
            && (forall e :: e in s <==> e in entries && IsJson(e.name))
            && (forall e :: e in s ==> e.body.Some?)
            && forall i, j :: 0 <= i < j < |s| ==> s[i].body.value.at < s[j].body.value.at
  {
    hide StableSort, OnlyJson, IsJson;
    var json := OnlyJson(entries);
    var s := StableSort(json, NameLessEq);
    NamesTotal();
    OnlyJsonKeeps(entries);
    StableSortOrders(json, NameLessEq);
    PermutationKeepsNoRepeats(json, s);
    forall i, j | 0 <= i < j < |s| ensures s[i].body.value.at < s[j].body.value.at {
      assert s[i] in s && s[j] in s;
      NameOrderIsTimeOrder(s[i], s[j]);
    }
  }

  /** Taking from the reversed list is taking the end of the sorted one. */
  lemma NewestFirstAt(entries: seq<Entry>, last: nat)
    ensures var s := StableSort(OnlyJson(entries), NameLessEq);
            var r := NewestFirst(entries, last);
            && |r| == (if last == 0 || |s| <= last then |s| else last)
            && forall i :: 0 <= i < |r| ==> r[i] == s[|s| - 1 - i]
  {
    hide StableSort, OnlyJson, Reverse, NameLessEq;
  }

  lemma EndOfSorted(s: seq<Entry>, r: seq<Entry>)
    requires |r| <= |s| && forall i :: 0 <= i < |r| ==> r[i] == s[|s| - 1 - i]
    requires forall e :: e in s ==> e.body.Some?
    requires forall i, j :: 0 <= i < j < |s| ==> s[i].body.value.at < s[j].body.value.at
    ensures forall e :: e in r ==> e in s
    ensures forall i, j :: 0 <= i < j < |r| ==> r[i].body.value.at > r[j].body.value.at
    ensures forall e, f :: e in s && e !in r && f in r ==> e.body.value.at < f.body.value.at
  {
    forall i | |s| - |r| <= i < |s| ensures s[i] in r {
      assert r[|s| - 1 - i] == s[i];
    }
    forall e, f | e in s && e !in r && f in r ensures e.body.value.at < f.body.value.at {
      var i :| 0 <= i < |s| && s[i] == e;
      var j :| 0 <= j < |r| && r[j] == f;
    }
  }

  /** Both can be read, and the first was captured later. */
  predicate Newer(a: Entry, b: Entry) {
    a.body.Some? && b.body.Some? && a.body.value.at > b.body.value.at
  }

  /** Captures of a directory, the stamp-named entries; other files carry no json extension. */
  ghost predicate HoldsCaptures(entries: seq<Entry>) {
    DistinctNames(entries) && forall e :: e in entries ==> NamedByStamp(e) || !IsJson(e.name)
  }

  lemma {:induction false} OnlyStamped(entries: seq<Entry>)
    requires HoldsCaptures(entries)
    ensures forall e :: e in entries ==> (IsJson(e.name) <==> NamedByStamp(e))
  {
    hide IsJson;
    forall e | e in entries && NamedByStamp(e) ensures IsJson(e.name) {
      CapturesAreJson(e.body.value.at);
    }
  }

  /**
   The listing is the most recent captures, newest first: every capture is either listed or, with a
   positive limit that is used up, older than every one that is; nothing else is listed.
   */
  lemma NewestFirstIsMostRecent(entries: seq<Entry>, last: nat)
    requires HoldsCaptures(entries)
    ensures var r := NewestFirst(entries, last);
            && (forall e :: e in r ==> e in entries && NamedByStamp(e))
            && (forall i, j :: 0 <= i < j < |r| ==> Newer(r[i], r[j]))
            && (forall e :: e in entries && NamedByStamp(e) && e !in r ==>
                  last > 0 && |r| == last && forall f :: f in r ==> Newer(f, e))
            && (last > 0 ==> |r| <= last)
  {
    hide StableSort, OnlyJson, NewestFirst, IsJson, NamedByStamp;
    OnlyStamped(entries);
    StampedBodies(entries);
    SortedByAge(entries);
    NewestFirstAt(entries, last);
    var s, r := StableSort(OnlyJson(entries), NameLessEq), NewestFirst(entries, last);
    EndOfSorted(s, r);
    if |r| == |s| {
      forall e | e in s ensures e in r {
        var i :| 0 <= i < |s| && s[i] == e;
        assert r[|s| - 1 - i] == e;
      }
    }
  }

  lemma StampedBodies(entries: seq<Entry>)
    ensures forall e :: e in entries && NamedByStamp(e) ==> e.body.Some?
  {
  }
}
