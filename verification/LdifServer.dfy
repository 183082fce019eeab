/** What the directory server does with the records of a user add, reading their text. */
module LdifServer {
  import opened Ldif
  import opened Strings
  import opened UidAllocation
  import opened Wrappers

  // ---- Fields of a record ----

  function Fields(lines: seq<string>): seq<Field> {
    if lines == [] then []
    else
      var f := FieldOf(lines[|lines| - 1]);
      Fields(lines[..|lines| - 1]) + if f.Some? then [f.value] else []
  }

  lemma NoFields()
    ensures Fields([]) == []
  {
  }

  lemma FieldsGrow(lines: seq<string>, key: string, value: string)
    requires IsKey(key)
    ensures Fields(lines + [Line(key, value)]) == Fields(lines) + [Field(key, TrimSpaces(TrimReturns(value)))]
  {
    hide FieldOf, IsKey, TrimSpaces, TrimReturns, Line;
    FieldOfLine(key, value);
    assert (lines + [Line(key, value)])[..|lines|] == lines;
  }

  /** One more line of a record. */
  lemma More(lines: seq<string>, fields: seq<Field>, key: string, value: string)
    returns (moreLines: seq<string>, moreFields: seq<Field>)
    requires IsKey(key) && IsValue(value) && Fields(lines) == fields
    ensures moreLines == lines + [Line(key, value)] && moreFields == fields + [Field(key, value)]
    ensures Fields(moreLines) == moreFields
  {
    hide Fields, IsKey, TrimSpaces, TrimReturns, Line;
    moreLines, moreFields := lines + [Line(key, value)], fields + [Field(key, value)];
    FieldsGrow(lines, key, value);
    assert OneLine(value);
    ValueStays(value);
  }

  /** A trimmed key is a value that reads back as it is. */
  lemma TrimmedIsValue(s: string)
    requires OneLine(Trim(s))
    ensures IsValue(Trim(s))
  {
    hide Trim, IsSpace;
    var head, tail := TrimSplits(s);
    WhiteSpace();
  }

  lemma WhiteSpace()
    ensures IsSpace(' ') && IsSpace('\r')
  {
  }

  lemma Keys()
    ensures IsKey("dn") && IsKey("objectClass") && IsKey("cn") && IsKey("homeDirectory") && IsKey("sshPublicKey")
    ensures IsKey("changetype") && IsKey("replace")
  {
    assert IsIgnored("dn") && IsIgnored("objectClass") && IsIgnored("cn") && IsIgnored("homeDirectory")
           && IsIgnored("sshPublicKey") && IsIgnored("changetype") && IsIgnored("replace");
    IgnoredIsKey("dn");
    IgnoredIsKey("objectClass");
    IgnoredIsKey("cn");
    IgnoredIsKey("homeDirectory");
    IgnoredIsKey("sshPublicKey");
    IgnoredIsKey("changetype");
    IgnoredIsKey("replace");
  }

  lemma NameValues(username: string)
    requires IsValue(username)
    ensures IsValue("uid=" + username + ",ou=people,dc=azcluster,dc=local") && IsValue("/shared/home/" + username)
  {
    assert OneLine("uid=") && OneLine(",ou=people,dc=azcluster,dc=local") && OneLine("/shared/home/");
  }

  lemma FixedValues()
    ensures IsValue("cn=uidNext,dc=azcluster,dc=local") && IsValue("modify") && IsValue("uidNumber")
    ensures IsValue("top") && IsValue("account") && IsValue("posixAccount") && IsValue("shadowAccount")
    ensures IsValue("ldapPublicKey")
  {
  }

  // ---- What the rendered records say ----

  lemma UserName(username: string)
    ensures "uid=" + username + ",ou=people," + BASE_DN == "uid=" + username + ",ou=people,dc=azcluster,dc=local"
  {
    var people, base := ",ou=people,", "dc=azcluster,dc=local";
    Regroup("uid=" + username, people, base);
    PeopleName();
  }

  lemma Regroup(a: string, b: string, c: string)
    ensures a + b + c == a + (b + c)
  {
  }

  lemma PeopleName()
    ensures ",ou=people," + "dc=azcluster,dc=local" == ",ou=people,dc=azcluster,dc=local"
  {
  }

  lemma CounterName()
    ensures "cn=uidNext," + BASE_DN == "cn=uidNext,dc=azcluster,dc=local"
  {
  }

  function ObjectFields(u: NewUser): seq<Field> {
    [Field("dn", "uid=" + u.username + ",ou=people,dc=azcluster,dc=local")]
    + [Field("objectClass", "top")]
    + [Field("objectClass", "account")]
    + [Field("objectClass", "posixAccount")]
    + [Field("objectClass", "shadowAccount")]
    + [Field("objectClass", "ldapPublicKey")]
  }

  function AccountFields(u: NewUser): seq<Field> {
    [Field("uid", u.username)]
    + [Field("cn", u.username)]
    + [Field("uidNumber", Decimal(u.uid))]
    + [Field("gidNumber", Decimal(u.gid))]
    + [Field("homeDirectory", "/shared/home/" + u.username)]
    + [Field("loginShell", u.shell)]
    + [Field("gecos", u.gecos)]
  }

  function KeyFields(keys: seq<string>): (fields: seq<Field>)
    ensures |fields| == |keys| && forall i :: 0 <= i < |keys| ==> fields[i] == Field("sshPublicKey", Trim(keys[i]))
  {
    seq(|keys|, i requires 0 <= i < |keys| => Field("sshPublicKey", Trim(keys[i])))
  }

  lemma ObjectsSay(u: NewUser)
    requires IsValue(u.username)
    ensures Fields(ObjectLines(u)) == ObjectFields(u)
  {
    hide Fields, IsKey, IsValue, Line;
    Keys();
    NameValues(u.username);
    FixedValues();
    NoFields();
    UserName(u.username);
    var lines, fields := More([], [], "dn", "uid=" + u.username + ",ou=people,dc=azcluster,dc=local");
    lines, fields := More(lines, fields, "objectClass", "top");
    lines, fields := More(lines, fields, "objectClass", "account");
    lines, fields := More(lines, fields, "objectClass", "posixAccount");
    lines, fields := More(lines, fields, "objectClass", "shadowAccount");
    lines, fields := More(lines, fields, "objectClass", "ldapPublicKey");
    assert lines == ObjectLines(u) && fields == ObjectFields(u);
  }

  lemma HeadSays(u: NewUser)
    requires Representable(u)
    ensures Fields(UserHead(u)) == ObjectFields(u) + AccountFields(u)
  {
    hide Fields, IsKey, IsValue, Line, Decimal, ObjectLines, ObjectFields;
    Keys();
    ColumnKeys();
    NameValues(u.username);
    DecimalIsValue(u.uid);
    DecimalIsValue(u.gid);
    ObjectsSay(u);
    var lines, fields := More(ObjectLines(u), ObjectFields(u), "uid", u.username);
    lines, fields := More(lines, fields, "cn", u.username);
    lines, fields := More(lines, fields, "uidNumber", Decimal(u.uid));
    lines, fields := More(lines, fields, "gidNumber", Decimal(u.gid));
    lines, fields := More(lines, fields, "homeDirectory", "/shared/home/" + u.username);
    lines, fields := More(lines, fields, "loginShell", u.shell);
    lines, fields := More(lines, fields, "gecos", u.gecos);
    assert lines == UserHead(u) && fields == ObjectFields(u) + AccountFields(u);
  }

  lemma {:induction false} KeysSay(lines: seq<string>, keys: seq<string>)
    requires forall i :: 0 <= i < |keys| ==> OneLine(Trim(keys[i]))
    ensures Fields(lines + KeyLines(keys)) == Fields(lines) + KeyFields(keys)
    decreases |keys|
  {
    hide Fields, OneLine, Line, Trim;
    if keys == [] {
      assert lines + KeyLines(keys) == lines && Fields(lines) + KeyFields(keys) == Fields(lines);
    } else {
      var most, last := keys[..|keys| - 1], Trim(keys[|keys| - 1]);
      KeysSay(lines, most);
      Keys();
      TrimmedIsValue(keys[|keys| - 1]);
      var more, fields := More(lines + KeyLines(most), Fields(lines) + KeyFields(most), "sshPublicKey", last);
      assert lines + KeyLines(keys) == more;
      assert KeyFields(keys) == KeyFields(most) + [Field("sshPublicKey", last)];
    }
  }

  /** A rendered user says its name, classes, numbers, home, shell and comment, and every key trimmed. */
  lemma UserSays(u: NewUser)
    requires Representable(u)
    ensures Fields(UserLines(u)) == ObjectFields(u) + AccountFields(u) + KeyFields(u.sshKeys)
  {
    hide Fields, OneLine, Trim, UserHead, ObjectFields, AccountFields;
    HeadSays(u);
    KeysSay(UserHead(u), u.sshKeys);
  }

  lemma BumpSays(uid: Uid)
    ensures Fields(BumpLines(uid)) ==
            [Field("dn", "cn=uidNext,dc=azcluster,dc=local")] + [Field("changetype", "modify")]
            + [Field("replace", "uidNumber")] + [Field("uidNumber", Decimal(NextUid(uid)))]
  {
    hide Fields, IsKey, IsValue, Line, Decimal;
    Keys();
    ColumnKeys();
    FixedValues();
    DecimalIsValue(NextUid(uid));
    NoFields();
    CounterName();
    var lines, fields := More([], [], "dn", "cn=uidNext,dc=azcluster,dc=local");
    lines, fields := More(lines, fields, "changetype", "modify");
    lines, fields := More(lines, fields, "replace", "uidNumber");
    lines, fields := More(lines, fields, "uidNumber", Decimal(NextUid(uid)));
    assert lines == BumpLines(uid);
  }

  // ---- Applying records ----

  /** A modification replaces the counter's number. */
  function Changed(s: State, dn: string, changes: seq<Field>): State {
    if dn == "cn=uidNext,dc=azcluster,dc=local" && |changes| == 2
       && changes[0] == Field("replace", "uidNumber") && changes[1].key == "uidNumber"
       && ParseUnsigned(changes[1].value, UID_MAX).Some?
    then s.(next := ParseUnsigned(changes[1].value, UID_MAX).value)
    else s
  }

  /** An entry named by its uid is added under a name that is free. */
  function Added(s: State, dn: string, row: Row): State {
    if dn == "uid=" + row.uid + ",ou=people,dc=azcluster,dc=local" && row.uid !in s.people
       && ParseUnsigned(row.uidNumber, UID_MAX).Some?
    then s.(people := s.people[row.uid := ParseUnsigned(row.uidNumber, UID_MAX).value])
    else s
  }

  function Applied(s: State, record: seq<string>): State {
    var fields := Fields(record);
    if fields == [] || fields[0].key != "dn" then s
    else if |fields| > 1 && fields[1] == Field("changetype", "modify") then Changed(s, fields[0].value, fields[2..])
    else Added(s, fields[0].value, RowOf(record))
  }

  function Entry(lines: seq<string>): seq<seq<string>> {
    if lines == [] then [] else [lines]
  }

  /** The records that blank lines separate; `entry` holds the lines already read of the first. */
  function Entries(lines: seq<string>, entry: seq<string>): seq<seq<string>> {
    if lines == [] then Entry(entry)
    else if IsBlankLine(lines[0]) then Entry(entry) + Entries(lines[1..], [])
    else Entries(lines[1..], entry + [lines[0]])
  }

  /** The server goes through the records, at most `n` of which reach it. */
  function AppliedFirst(s: State, records: seq<seq<string>>, n: nat): State
    decreases n
  {
    if n == 0 || records == [] then s else AppliedFirst(Applied(s, records[0]), records[1..], n - 1)
  }

  lemma UserApplies(s: State, u: NewUser)
    requires Representable(u) && ValidUsername(u.username)
    ensures Applied(s, UserLines(u)) == AfterAdd(s, u.username, Some(u.uid), 1)
  {
    hide Fields, Representable, RowOf, ParseUnsigned, Trim, UserLines, ValidUsername, Decimal;
    UserSays(u);
    UserReads(u);
    DecimalParses(u.uid, UID_MAX);
  }

  lemma BumpApplies(s: State, uid: Uid)
    ensures Applied(s, BumpLines(uid)) == s.(next := NextUid(uid))
  {
    hide Fields, ParseUnsigned, Decimal;
    BumpSays(uid);
    DecimalParses(NextUid(uid), UID_MAX);
  }

  lemma {:induction false} EntryGoesOn(entry: seq<string>, more: seq<string>, before: seq<string>)
    requires Readable(entry)
    ensures Entries(entry + more, before) == Entries(more, before + entry)
  {
    hide IsBlankLine, OneLine;
    if entry == [] {
      assert entry + more == more && before + entry == before;
    } else {
      EntryGoesOn(entry[1..], more, before + [entry[0]]);
      assert (entry + more)[1..] == entry[1..] + more;
      assert before + [entry[0]] + entry[1..] == before + entry;
    }
  }

  lemma OneEntry(entry: seq<string>)
    requires Readable(entry) && entry != []
    ensures Entries(entry, []) == [entry]
  {
    hide Readable;
    EntryGoesOn(entry, [], []);
    assert entry + [] == entry && [] + entry == entry;
  }

  lemma TwoEntries(first: seq<string>, second: seq<string>)
    requires Readable(first) && Readable(second) && first != [] && second != []
    ensures Entries(first + [""] + second, []) == [first, second]
  {
    hide Readable, Entries;
    EntryGoesOn(first, [""] + second, []);
    assert first + ([""] + second) == first + [""] + second && [] + first == first;
    BlankEnds(first, second);
    OneEntry(second);
    assert [first] + [second] == [first, second];
  }

  lemma BlankEnds(entry: seq<string>, rest: seq<string>)
    ensures Entries([""] + rest, entry) == Entry(entry) + Entries(rest, [])
  {
    assert ([""] + rest)[1..] == rest;
    assert IsBlankLine("");
  }

  /** The records an add sends: the user, and for an allotted number the counter's. */
  function Sent(u: NewUser, uid: Option<Uid>): seq<Record> {
    if uid.None? then [User(u), Bump(u.uid)] else [User(u)]
  }

  lemma SentEntries(u: NewUser, uid: Option<Uid>)
    requires Representable(u)
    ensures Entries(SplitLines(RenderAll(Sent(u, uid))), []) ==
            if uid.None? then [UserLines(u), BumpLines(u.uid)] else [UserLines(u)]
  {
    hide Entries, SplitLines, RenderAll, UserLines, BumpLines, Representable, Readable;
    var records := Sent(u, uid);
    RenderedText(records);
    JoinedLines(records);
    LinesOfText(Ldif.Joined(records));
    UserReads(u);
    BumpReads(u.uid);
    UserSaysSomething(u);
    if uid.None? {
      assert records[1..] == [Bump(u.uid)];
      TwoEntries(UserLines(u), BumpLines(u.uid));
    } else {
      OneEntry(UserLines(u));
    }
  }

  lemma UserSaysSomething(u: NewUser)
    ensures UserLines(u) != [] && BumpLines(u.uid) != []
  {
    assert UserLines(u)[0] == UserHead(u)[0];
  }

  /**
   What the server makes of the text of an add, however much of it arrives, is the directory after the
   add: the user is entered with its number under a free name, and the counter's record counts on from it.
   */
  lemma TextOfAddApplies(s: State, u: NewUser, uid: Option<Uid>, arrived: nat)
    requires ValidUsername(u.username) && IsValue(u.shell) && IsValue(u.gecos)
    requires forall i :: 0 <= i < |u.sshKeys| ==> OneLine(u.sshKeys[i])
    requires u.uid == uid.GetOr(s.next)
    ensures AppliedFirst(s, Entries(SplitLines(RenderAll(Sent(u, uid))), []), arrived)
         == AfterAdd(s, u.username, uid, arrived)
  {
    hide Entries, SplitLines, RenderAll, UserLines, BumpLines, Representable, Applied, ValidUsername, Sent;
    ValidNamesAreValues(u.username);
    KeysFromLines(u);
    SentEntries(u, uid);
    UserApplies(s, u);
    var records := Entries(SplitLines(RenderAll(Sent(u, uid))), []);
    if uid.None? {
      AppliedTwo(s, UserLines(u), BumpLines(u.uid), arrived);
      BumpApplies(Applied(s, UserLines(u)), u.uid);
    } else {
      AppliedOne(s, UserLines(u), arrived);
    }
  }

  lemma AppliedOne(s: State, record: seq<string>, arrived: nat)
    ensures AppliedFirst(s, [record], arrived) == if arrived == 0 then s else Applied(s, record)
  {
    hide Applied;
    assert [record][1..] == [];
  }

  lemma AppliedTwo(s: State, first: seq<string>, second: seq<string>, arrived: nat)
    ensures AppliedFirst(s, [first, second], arrived) ==
            if arrived == 0 then s else if arrived == 1 then Applied(s, first) else Applied(Applied(s, first), second)
  {
    hide Applied;
    assert [first, second][1..] == [second];
    if arrived > 0 {
      AppliedOne(Applied(s, first), second, arrived - 1);
    }
  }
}
