/**
 Stable sorting as the standard library's `sort_by` promises it: the output is an ordered
 permutation of the input and equal elements keep their order.
 */
module Sorting {

  ghost predicate TotalPreorder<T(!new)>(le: (T, T) -> bool) {
    && (forall x, y :: le(x, y) || le(y, x))
    && (forall x, y, z :: le(x, y) && le(y, z) ==> le(x, z))
  }

  ghost predicate Ascending<T>(s: seq<T>, le: (T, T) -> bool) {
    forall i, j :: 0 <= i < j < |s| ==> le(s[i], s[j])
  }

  function Insert<T>(x: T, s: seq<T>, le: (T, T) -> bool): seq<T> {
    if s == [] || le(x, s[0]) then [x] + s else [s[0]] + Insert(x, s[1..], le)
  }

  function StableSort<T>(s: seq<T>, le: (T, T) -> bool): seq<T> {
    if s == [] then [] else Insert(s[0], StableSort(s[1..], le), le)
  }

  lemma {:induction false} InsertKeepsElements<T>(x: T, s: seq<T>, le: (T, T) -> bool)
    ensures multiset(Insert(x, s, le)) == multiset{x} + multiset(s)
    ensures |Insert(x, s, le)| == |s| + 1
  {
    if s != [] && !le(x, s[0]) {
      InsertKeepsElements(x, s[1..], le);
      assert s == [s[0]] + s[1..];
    }
  }

  lemma {:induction false} InsertAscending<T(!new)>(x: T, s: seq<T>, le: (T, T) -> bool)
    requires TotalPreorder(le) && Ascending(s, le)
    ensures Ascending(Insert(x, s, le), le)
  {
    if s != [] {
      if le(x, s[0]) {
        assert forall j :: 0 <= j < |s| ==> le(x, s[j]) by {
          forall j | 0 <= j < |s| ensures le(x, s[j]) {
            assert j == 0 || le(s[0], s[j]);
          }
        }
      } else {
        var rest := Insert(x, s[1..], le);
        InsertAscending(x, s[1..], le);
        InsertKeepsElements(x, s[1..], le);
        forall y | y in rest ensures le(s[0], y) {
          assert y in multiset(rest);
          assert y == x || y in s[1..];
        }
      }
    }
  }

  /** What callers rely on: an ordered permutation of the input. */
  lemma {:induction false} StableSortOrders<T(!new)>(s: seq<T>, le: (T, T) -> bool)
    requires TotalPreorder(le)
    ensures Ascending(StableSort(s, le), le)
    ensures multiset(StableSort(s, le)) == multiset(s)
    ensures |StableSort(s, le)| == |s|
    ensures forall x :: x in StableSort(s, le) <==> x in s
  {
    if s != [] {
      StableSortOrders(s[1..], le);
      InsertAscending(s[0], StableSort(s[1..], le), le);
      InsertKeepsElements(s[0], StableSort(s[1..], le), le);
      assert s == [s[0]] + s[1..];
    }
    forall x ensures x in StableSort(s, le) <==> x in s {
      assert x in StableSort(s, le) <==> x in multiset(StableSort(s, le));
    }
  }

  /** Elements of s that are equivalent to x, in their original order. */
  function Alike<T>(s: seq<T>, x: T, le: (T, T) -> bool): seq<T> {
    if s == [] then []
    else (if le(s[0], x) && le(x, s[0]) then [s[0]] else []) + Alike(s[1..], x, le)
  }

  lemma {:induction false} AlikeInsert<T(!new)>(x: T, s: seq<T>, y: T, le: (T, T) -> bool)
    requires TotalPreorder(le) && Ascending(s, le)
    ensures Alike(Insert(x, s, le), y, le) == Alike([x] + s, y, le)
  {
    if s != [] && !le(x, s[0]) {
      var rest := s[1..];
      AlikeInsert(x, rest, y, le);
      assert ([x] + rest)[1..] == rest && ([x] + s)[1..] == s;
      assert Insert(x, s, le)[1..] == Insert(x, rest, le);
      assert !((le(s[0], y) && le(y, s[0])) && (le(x, y) && le(y, x)));
    }
  }

  /** Stability: among equivalent elements the input order survives. */
  lemma {:induction false} StableSortKeepsOrder<T(!new)>(s: seq<T>, y: T, le: (T, T) -> bool)
    requires TotalPreorder(le)
    ensures Alike(StableSort(s, le), y, le) == Alike(s, y, le)
  {
    if s != [] {
      StableSortKeepsOrder(s[1..], y, le);
      StableSortOrders(s[1..], le);
      AlikeInsert(s[0], StableSort(s[1..], le), y, le);
      var t := [s[0]] + StableSort(s[1..], le);
      assert t[1..] == StableSort(s[1..], le);
    }
  }

  ghost predicate NoRepeats<T>(s: seq<T>) {
    forall i, j :: 0 <= i < j < |s| ==> s[i] != s[j]
  }

  lemma {:induction false} NoRepeatsCount<T>(s: seq<T>)
    ensures NoRepeats(s) <==> forall x :: x in s ==> multiset(s)[x] == 1
  {
    if s != [] {
      var rest := s[1..];
      NoRepeatsCount(rest);
      assert s == [s[0]] + rest;
      if NoRepeats(s) {
        assert s[0] !in rest;
      } else if forall x :: x in s ==> multiset(s)[x] == 1 {
        assert s[0] in s && multiset(s)[s[0]] == 1 + multiset(rest)[s[0]];
        forall x | x in rest ensures multiset(rest)[x] == 1 {
          assert x in s;
        }
      }
    }
  }

  /** Sorting neither introduces nor removes repetitions. */
  lemma PermutationKeepsNoRepeats<T>(s: seq<T>, t: seq<T>)
    requires multiset(s) == multiset(t) && NoRepeats(s)
    ensures NoRepeats(t)
  {
    NoRepeatsCount(s);
    NoRepeatsCount(t);
    forall x | x in t ensures multiset(t)[x] == 1 {
      assert x in multiset(s);
    }
  }
}
