/**
 Allotting uid numbers: `user add` reads a counter entry of the directory, adds the user and moves the
 counter in one LDIF stream, which the server applies record by record.
 */
module UidAllocation {
  import opened Ldif
  import opened Sorting
  import opened Strings
  import opened Wrappers

  const UID_MAX: Uid := 0xFFFF_FFFF

  // ---- Reading the counter ----

  const PREFIX := "uidNumber:"

  /** The number on the first line that has one; a line that cannot be parsed ends the search. */
  function FirstNumber(lines: seq<string>): Option<nat> {
    if lines == [] then None
    else if PREFIX <= lines[0] then ParseUnsigned(Trim(lines[0][|PREFIX|..]), UID_MAX)
    else FirstNumber(lines[1..])
  }

  method FetchNextUid(output: string) returns (uid: Option<nat>)
    ensures uid == FirstNumber(SplitLines(output))
  {
    var lines := SplitLines(output);
    for i := 0 to |lines|
      invariant FirstNumber(lines[i..]) == FirstNumber(lines)
    {
      assert lines[i..][0] == lines[i] && lines[i..][1..] == lines[i + 1..];
      if PREFIX <= lines[i] {
        return ParseUnsigned(Trim(lines[i][|PREFIX|..]), UID_MAX);
      }
    }
    return None;
  }

  /** What the directory answers about the counter. */
  function CounterText(next: Uid): string {
    Text([Line("dn", "cn=uidNext," + BASE_DN)] + [Line("uidNumber", Decimal(next))] + [""])
  }

  lemma TrimDecimal(n: nat)
    ensures Trim(" " + Decimal(n)) == Decimal(n)
  {
    hide Decimal;
    DecimalReadsBack(n);
    var text := Decimal(n);
    assert (" " + text)[1..] == text;
    assert '0' <= text[0] <= '9' && '0' <= text[|text| - 1] <= '9';
    assert TrimStart(text) == text;
  }

  /** The counter is read back as it stands. */
  lemma CounterReadsBack(next: Uid)
    ensures FirstNumber(SplitLines(CounterText(next))) == Some(next)
  {
    hide Text, SplitLines, ParseUnsigned, Trim, Decimal;
    var lines := [Line("dn", "cn=uidNext," + BASE_DN)] + [Line("uidNumber", Decimal(next))] + [""];
    CounterLines(next);
    LinesOfText(lines);
    assert lines[1..][0] == Line("uidNumber", Decimal(next));
    assert lines[0][0] == 'd';
    assert lines[1] == PREFIX + (" " + Decimal(next));
    assert lines[1][|PREFIX|..] == " " + Decimal(next);
    TrimDecimal(next);
    DecimalParses(next, UID_MAX);
  }

  lemma CounterLines(next: Uid)
    ensures OneLine(Line("dn", "cn=uidNext," + BASE_DN)) && OneLine(Line("uidNumber", Decimal(next))) && OneLine("")
  {
    hide Decimal;
    DecimalReadsBack(next);
    assert OneLine("dn") && OneLine(": ") && OneLine("uidNumber") && OneLine("cn=uidNext,") && OneLine(BASE_DN);
  }

  // ---- The directory ----

  datatype State = State(people: map<string, Uid>, next: Uid)

  predicate ValidUsername(name: string) {
    && 1 <= |name| <= 32 && 'a' <= name[0] <= 'z'
    && (forall i :: 0 <= i < |name| ==>
          'a' <= name[i] <= 'z' || '0' <= name[i] <= '9' || name[i] == '_' || name[i] == '-')
  }

  lemma ValidNamesAreValues(name: string)
    requires ValidUsername(name)
    ensures name != "" && IsValue(name)
  {
  }

  /** An added user is listed as it was added whenever shell and comment are representable. */
  lemma AddedUserIsListed(u: NewUser, records: seq<Record>)
    requires ValidUsername(u.username) && IsValue(u.shell) && IsValue(u.gecos)
    requires forall i :: 0 <= i < |u.sshKeys| ==> OneLine(u.sshKeys[i])
    requires AllRepresentable(records)
    ensures RowFor(u) in StableSort(Rows(SplitLines(RenderAll(records + [User(u), Bump(u.uid)])), []), RowLessEq)
  {
    hide Representable, RowFor, RowLessEq, UserLessEq, StableSort, Rows, SplitLines, RenderAll;
    var all := records + [User(u), Bump(u.uid)];
    ValidNamesAreValues(u.username);
    KeysFromLines(u);
    ListingRoundTrip(all);
    UserIsCounted(records, u);
    var sorted := StableSort(UsersOf(all), UserLessEq);
    assert u in multiset(sorted);
    var i :| 0 <= i < |sorted| && sorted[i] == u;
    assert RowsFor(sorted)[i] == RowFor(u);
  }

  lemma {:induction false} UserIsCounted(records: seq<Record>, u: NewUser)
    ensures u in UsersOf(records + [User(u), Bump(u.uid)])
  {
    var tail := [User(u), Bump(u.uid)];
    if records == [] {
      assert records + tail == tail && UsersOf(tail) == [u] + UsersOf(tail[1..]);
    } else {
      UserIsCounted(records[1..], u);
      assert (records + tail)[1..] == records[1..] + tail;
    }
  }

  /** The first `applied` records of an add reached the server; adding a name twice fails and the stream goes on. */
  function AfterAdd(s: State, name: string, uid: Option<Uid>, applied: nat): State {
    if !ValidUsername(name) then s
    else
      var added := if applied >= 1 && name !in s.people then s.people[name := uid.GetOr(s.next)] else s.people;
      State(added, if applied >= 2 && uid.None? then NextUid(s.next) else s.next)
  }

  /** What a removal leaves; an invalid name or a refused write leaves everything. */
  function AfterRemove(s: State, name: string, accepted: bool): State {
    if ValidUsername(name) && accepted then s.(people := s.people - {name}) else s
  }

  datatype AddError = BadUsername | NoCounter | WriteFailed | ProvisionFailed | GrantFailed

  /** The commands after the entry is written: the key pair, and for an administrator the group. */
  datatype FollowUp = FollowUp(admin: bool, provisioned: bool, granted: bool) {
    predicate Succeeds() {
      provisioned && (admin ==> granted)
    }
  }

  class Directory {
    var state: State

    constructor (state: State)
      ensures this.state == state
    {
      this.state := state;
    }

    method UserAdd(name: string, uid: Option<Uid>, applied: nat, after: FollowUp) returns (r: Result<Uid, AddError>)
      modifies this
      ensures state == AfterAdd(old(state), name, uid, applied)
      ensures r.Ok? ==> name !in old(state).people && name in state.people && state.people[name] == r.value
      ensures r.Ok? <==>
              && ValidUsername(name) && name !in old(state).people
              && applied >= (if uid.None? then 2 else 1) && after.Succeeds()
    {
      if !ValidUsername(name) {
        return Err(BadUsername);
      }
      var number: Uid;
      match uid {
        case Some(n) => number := n;
        case None =>
          CounterReadsBack(state.next);
          var fetched := FetchNextUid(CounterText(state.next));
          if fetched.None? {
            return Err(NoCounter);
          }
          number := fetched.value;
      }
      var taken := name in state.people;
      if applied >= 1 && !taken {
        state := state.(people := state.people[name := number]);
      }
      if applied >= 2 && uid.None? {
        state := state.(next := NextUid(number));
      }
      if taken || applied < (if uid.None? then 2 else 1) {
        return Err(WriteFailed);
      }
      if !after.provisioned {
        return Err(ProvisionFailed);
      }
      if after.admin && !after.granted {
        return Err(GrantFailed);
      }
      return Ok(number);
    }

    method UserRemove(name: string, accepted: bool)
      modifies this
      ensures state == AfterRemove(old(state), name, accepted)
      ensures ValidUsername(name) && accepted ==> name !in state.people
      ensures forall n :: n in old(state).people && (n != name || !ValidUsername(name) || !accepted) ==>
                n in state.people && state.people[n] == old(state).people[n]
      ensures state.people.Keys <= old(state).people.Keys && state.next == old(state).next
    {
      if ValidUsername(name) && accepted {
        state := state.(people := state.people - {name});
      }
    }

    /** A run of commands, one after the other. */
    method Perform(steps: seq<Step>, after: FollowUp)
      modifies this
      ensures state == Run(old(state), steps)
    {
      for i := 0 to |steps|
        invariant Run(old(state), steps) == Run(state, steps[i..])
      {
        assert steps[i..][1..] == steps[i + 1..];
        match steps[i] {
          case Add(name, uid, applied) => var _ := UserAdd(name, uid, applied, after);
          case Remove(name, accepted) => UserRemove(name, accepted);
        }
      }
    }
  }

  // ---- Distinct numbers ----

  ghost predicate Distinct(s: State) {
    forall a, b :: a in s.people && b in s.people && a != b ==> s.people[a] != s.people[b]
  }

  /** The counter is ahead of every number in use. */
  ghost predicate Ahead(s: State) {
    forall a :: a in s.people ==> s.people[a] < s.next
  }

  predicate Adds(s: State, name: string, applied: nat) {
    ValidUsername(name) && applied >= 1 && name !in s.people
  }

  /** An allotted number is unused as long as the counter is ahead. */
  lemma AllottedIsUnused(s: State, name: string, applied: nat)
    requires Distinct(s) && Ahead(s)
    ensures Distinct(AfterAdd(s, name, None, applied))
  {
  }

  predicate Used(s: State, n: Uid) {
    exists a :: a in s.people && s.people[a] == n
  }

  /** An add, its number allotted or chosen, keeps the numbers distinct exactly when nobody has that number. */
  lemma GivenIsUnusedExactly(s: State, name: string, uid: Option<Uid>, applied: nat)
    ensures Distinct(AfterAdd(s, name, uid, applied)) <==>
              Distinct(s) && (Adds(s, name, applied) ==> !Used(s, uid.GetOr(s.next)))
    ensures forall m :: Used(AfterAdd(s, name, uid, applied), m) <==>
              Used(s, m) || (Adds(s, name, applied) && m == uid.GetOr(s.next))
  {
    var t := AfterAdd(s, name, uid, applied);
    if Adds(s, name, applied) {
      var n := uid.GetOr(s.next);
      assert name in t.people && t.people[name] == n;
      assert forall a :: a in s.people ==> a in t.people && t.people[a] == s.people[a];
      forall m ensures Used(t, m) <==> Used(s, m) || m == n {
        if Used(s, m) {
          var a :| a in s.people && s.people[a] == m;
          assert a in t.people && t.people[a] == m;
        }
      }
    }
  }

  /**
   The counter stays ahead exactly when no number is chosen at or above it, the counter's record follows
   every entry it numbered, and the counter does not wrap.
   */
  lemma StaysAheadExactly(s: State, name: string, uid: Option<Uid>, applied: nat)
    requires Ahead(s)
    ensures Ahead(AfterAdd(s, name, uid, applied)) <==>
            match uid
            case Some(n) => Adds(s, name, applied) ==> n < s.next
            case None =>
              && !(Adds(s, name, applied) && applied == 1)
              && !(ValidUsername(name) && applied >= 2 && s.next == UID_MAX)
  {
    var t := AfterAdd(s, name, uid, applied);
    if Adds(s, name, applied) {
      assert name in t.people && t.people[name] == uid.GetOr(s.next);
    } else if ValidUsername(name) && applied >= 2 {
      assert name in t.people;
    }
  }

  // ---- Runs ----

  datatype Step = Add(name: string, uid: Option<Uid>, applied: nat) | Remove(name: string, accepted: bool)

  function After(s: State, step: Step): State {
    match step
    case Add(name, uid, applied) => AfterAdd(s, name, uid, applied)
    case Remove(name, accepted) => AfterRemove(s, name, accepted)
  }

  function Run(s: State, steps: seq<Step>): State
    decreases |steps|
  {
    if steps == [] then s else Run(After(s, steps[0]), steps[1..])
  }

  /** The directory as a new cluster seeds it. */
  function Seeded(): State {
    State(map["clusteradmin" := 20001, "clusteruser" := 20002], 20003)
  }

  lemma SeededIsSound()
    ensures Distinct(Seeded()) && Ahead(Seeded())
  {
    assert "clusteradmin" != "clusteruser";
  }

  /** Numbers left to the counter, each add carried out in full or not at all. */
  predicate Counted(step: Step) {
    step.Add? ==> step.uid.None? && step.applied != 1
  }

  lemma {:induction false} CountedRunKeepsDistinct(s: State, steps: seq<Step>)
    requires Distinct(s) && Ahead(s) && s.next + |steps| <= UID_MAX
    requires forall i :: 0 <= i < |steps| ==> Counted(steps[i])
    ensures Distinct(Run(s, steps)) && Ahead(Run(s, steps))
    decreases |steps|
  {
    if steps != [] {
      if steps[0].Add? {
        AllottedIsUnused(s, steps[0].name, steps[0].applied);
        StaysAheadExactly(s, steps[0].name, None, steps[0].applied);
      }
      CountedRunKeepsDistinct(After(s, steps[0]), steps[1..]);
    }
  }

  /** From a new cluster, numbers the counter gives out never coincide, whoever is removed in between. */
  lemma SeededRunsKeepDistinct(steps: seq<Step>)
    requires 20003 + |steps| <= UID_MAX
    requires forall i :: 0 <= i < |steps| ==> Counted(steps[i])
    ensures Distinct(Run(Seeded(), steps))
  {
    SeededIsSound();
    CountedRunKeepsDistinct(Seeded(), steps);
  }

  /** Cut off between its two records, an add leaves its number to be given out again. */
  lemma CutOffAddRepeats(s: State, first: string, second: string)
    requires ValidUsername(first) && ValidUsername(second) && first != second
    requires first !in s.people && second !in s.people
    ensures !Distinct(Run(s, [Add(first, None, 1), Add(second, None, 2)]))
  {
    var t := After(s, Add(first, None, 1));
    var steps := [Add(first, None, 1), Add(second, None, 2)];
    assert steps[1..] == [Add(second, None, 2)] && steps[1..][1..] == [];
    var u := Run(s, steps);
    assert Run(t, steps[1..]) == Run(After(t, Add(second, None, 2)), []);
    assert u == After(t, Add(second, None, 2));
    assert u.people[first] == s.next && u.people[second] == s.next;
  }

  // ---- Exactly which runs of adds keep numbers distinct ----

  /** The numbers a run of adds gives, from the names taken and the counter alone. */
  function Given(names: set<string>, next: Uid, steps: seq<Step>): seq<Uid>
    requires forall i :: 0 <= i < |steps| ==> steps[i].Add?
    decreases |steps|
  {
    if steps == [] then []
    else
      var Add(name, uid, applied) := steps[0];
      var adds := ValidUsername(name) && applied >= 1 && name !in names;
      (if adds then [uid.GetOr(next)] else [])
      + Given(if adds then names + {name} else names,
              if ValidUsername(name) && applied >= 2 && uid.None? then NextUid(next) else next,
              steps[1..])
  }

  /**
   A run of adds, numbers allotted or chosen, carried out in whole or in part, ends with distinct numbers
   exactly when it starts with distinct ones and gives no number twice and none that is in use.
   */
  lemma {:induction false} AddsKeepDistinctExactly(s: State, steps: seq<Step>)
    requires forall i :: 0 <= i < |steps| ==> steps[i].Add?
    ensures var given := Given(s.people.Keys, s.next, steps);
            Distinct(Run(s, steps)) <==>
            Distinct(s) && NoRepeats(given) && forall i :: 0 <= i < |given| ==> !Used(s, given[i])
    decreases |steps|
  {
    hide Distinct, Used, ValidUsername, NoRepeats, NextUid;
    if steps == [] {
      NoRepeatsInNone();
    } else {
      var Add(name, uid, applied) := steps[0];
      var t := After(s, steps[0]);
      GivenIsUnusedExactly(s, name, uid, applied);
      AddsKeepDistinctExactly(t, steps[1..]);
      var rest := Given(t.people.Keys, t.next, steps[1..]);
      if Adds(s, name, applied) {
        assert t.people.Keys == s.people.Keys + {name};
        assert Given(s.people.Keys, s.next, steps) == [uid.GetOr(s.next)] + rest;
        OneMoreNumber(s, t, uid.GetOr(s.next), rest);
      } else {
        assert t.people == s.people;
        assert Given(s.people.Keys, s.next, steps) == [] + rest == rest;
      }
    }
  }

  lemma NoRepeatsInNone()
    ensures NoRepeats<Uid>([])
  {
  }

  lemma OneMoreNumber(s: State, t: State, n: Uid, rest: seq<Uid>)
    requires forall m :: Used(t, m) <==> Used(s, m) || m == n
    ensures var given := [n] + rest;
            NoRepeats(given) && (forall i :: 0 <= i < |given| ==> !Used(s, given[i]))
            <==> !Used(s, n) && NoRepeats(rest) && (forall i :: 0 <= i < |rest| ==> !Used(t, rest[i]))
  {
    hide Used;
    var given := [n] + rest;
    assert given[0] == n && forall i :: 0 <= i < |rest| ==> given[i + 1] == rest[i];
    if NoRepeats(given) && forall i :: 0 <= i < |given| ==> !Used(s, given[i]) {
      forall i | 0 <= i < |rest| ensures !Used(t, rest[i]) {
        assert given[i + 1] == rest[i];
      }
    }
    if !Used(s, n) && NoRepeats(rest) && forall i :: 0 <= i < |rest| ==> !Used(t, rest[i]) {
      forall i, j | 0 <= i < j < |given| ensures given[i] != given[j] {
        assert given[j] == rest[j - 1];
      }
    }
  }

  /**
   A new entry follows one that was cut off from its counter record, before any later record moved the
   counter; `pending` says that such a cut-off entry has gone before. No number enters into it.
   */
  predicate Reuses(names: set<string>, pending: bool, steps: seq<Step>)
    requires forall i :: 0 <= i < |steps| ==> steps[i].Add?
    decreases |steps|
  {
    if steps == [] then false
    else
      var Add(name, _, applied) := steps[0];
      var adds := ValidUsername(name) && applied >= 1 && name !in names;
      var moves := ValidUsername(name) && applied >= 2;
      (adds && pending) || Reuses(if adds then names + {name} else names, !moves && (pending || adds), steps[1..])
  }

  /** The counter is ahead of the numbers in use, or at the highest one after a cut-off entry. */
  ghost predicate Behind(s: State, pending: bool) {
    if pending then Used(s, s.next) && forall a :: a in s.people ==> s.people[a] <= s.next else Ahead(s)
  }

  lemma {:induction false} AllottedFrom(s: State, pending: bool, steps: seq<Step>)
    requires Distinct(s) && Behind(s, pending) && s.next + |steps| <= UID_MAX
    requires forall i :: 0 <= i < |steps| ==> steps[i].Add? && steps[i].uid.None?
    ensures Distinct(Run(s, steps)) <==> !Reuses(s.people.Keys, pending, steps)
    decreases |steps|
  {
    hide Distinct, ValidUsername;
    if steps != [] {
      var Add(name, uid, applied) := steps[0];
      var t := After(s, steps[0]);
      GivenIsUnusedExactly(s, name, None, applied);
      if Adds(s, name, applied) && pending {
        AddsKeepDistinctExactly(t, steps[1..]);
      } else {
        AllottedStep(s, pending, name, applied);
        var moves := ValidUsername(name) && applied >= 2;
        AllottedFrom(t, !moves && (pending || Adds(s, name, applied)), steps[1..]);
        assert Adds(s, name, applied) ==> t.people.Keys == s.people.Keys + {name};
      }
    }
  }

  lemma AllottedStep(s: State, pending: bool, name: string, applied: nat)
    requires Distinct(s) && Behind(s, pending) && s.next < UID_MAX && !(Adds(s, name, applied) && pending)
    ensures var t := AfterAdd(s, name, None, applied);
            var moves := ValidUsername(name) && applied >= 2;
            Distinct(t) && Behind(t, !moves && (pending || Adds(s, name, applied))) && t.next <= s.next + 1
  {
    hide ValidUsername;
    var t := AfterAdd(s, name, None, applied);
    if Adds(s, name, applied) {
      assert name in t.people && t.people[name] == s.next;
    } else if ValidUsername(name) && applied >= 2 {
      assert t.people == s.people;
    }
  }

  /**
   From a counter that is ahead, allotted adds end with distinct numbers exactly when no new entry follows
   one that was cut off before the counter moved on.
   */
  lemma AllottedRunsExactly(s: State, steps: seq<Step>)
    requires Distinct(s) && Ahead(s) && s.next + |steps| <= UID_MAX
    requires forall i :: 0 <= i < |steps| ==> steps[i].Add? && steps[i].uid.None?
    ensures Distinct(Run(s, steps)) <==> !Reuses(s.people.Keys, false, steps)
  {
    AllottedFrom(s, false, steps);
  }

  /** Adds of new users whose numbers the counter gives, carried out in full. */
  function Allotments(names: seq<string>): (steps: seq<Step>)
    ensures |steps| == |names| && forall i :: 0 <= i < |steps| ==> steps[i] == Add(names[i], None, 2)
  {
    seq(|names|, i requires 0 <= i < |names| => Add(names[i], None, 2))
  }

  ghost predicate NewNames(taken: set<string>, names: seq<string>) {
    NoRepeats(names) && forall i :: 0 <= i < |names| ==> ValidUsername(names[i]) && names[i] !in taken
  }

  /** They get consecutive numbers. */
  lemma {:induction false} AllottedAreConsecutive(taken: set<string>, next: Uid, names: seq<string>)
    requires NewNames(taken, names) && next + |names| <= UID_MAX + 1
    ensures var given := Given(taken, next, Allotments(names));
            |given| == |names| && forall i :: 0 <= i < |given| ==> given[i] == next + i
    decreases |names|
  {
    hide ValidUsername;
    if names != [] {
      var rest := names[1..];
      assert Allotments(names)[1..] == Allotments(rest);
      if rest != [] {
        assert forall i :: 0 <= i < |rest| ==> rest[i] == names[i + 1];
        AllottedAreConsecutive(taken + {names[0]}, NextUid(next), rest);
      }
    }
  }

  /** A number chosen by hand at or above the counter is given again when the counter gets there. */
  lemma ChosenAheadRepeats(s: State, first: string, n: Uid, names: seq<string>)
    requires n >= s.next && |names| == n - s.next + 1
    requires ValidUsername(first) && first !in s.people && NewNames(s.people.Keys + {first}, names)
    ensures !Distinct(Run(s, [Add(first, Some(n), 1)] + Allotments(names)))
  {
    hide ValidUsername, Distinct;
    var steps := [Add(first, Some(n), 1)] + Allotments(names);
    assert steps[1..] == Allotments(names);
    AllottedAreConsecutive(s.people.Keys + {first}, s.next, names);
    AddsKeepDistinctExactly(s, steps);
    var rest := Given(s.people.Keys + {first}, s.next, Allotments(names));
    var given := Given(s.people.Keys, s.next, steps);
    assert given == [n] + rest;
    assert given[0] == n && given[|names|] == rest[|names| - 1] == n;
  }
}
