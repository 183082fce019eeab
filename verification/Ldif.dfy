/**
 LDIF text of the cluster's users: what `user add` renders, and how the user listing reads
 directory entries back into rows ordered by uid number.
 */
module Ldif {
  import opened Sorting
  import opened Stamps
  import opened Strings
  import opened TextOrder
  import opened Wrappers

  const BASE_DN := "dc=azcluster,dc=local"
  const U64_MAX: nat := 0xFFFF_FFFF_FFFF_FFFF

  // ---- Lines ----

  function Text(lines: seq<string>): string {
    if lines == [] then "" else Text(lines[..|lines| - 1]) + lines[|lines| - 1] + "\n"
  }

  /** Lines without their newline; the reader trims carriage returns itself. */
  function SplitLines(s: string): seq<string> {
    if s == "" then []
    else
      var i := Find(s, '\n');
      if i == |s| then [s] else [s[..i]] + SplitLines(s[i + 1..])
  }

  predicate OneLine(s: string) {
    forall i :: 0 <= i < |s| ==> s[i] != '\n'
  }

  lemma NoText()
    ensures Text([]) == ""
  {
  }

  lemma {:induction false} TextStarts(line: string, lines: seq<string>)
    ensures Text([line] + lines) == line + "\n" + Text(lines)
  {
    if lines == [] {
      assert ([line] + lines)[..0] == [];
    } else {
      var most, last := lines[..|lines| - 1], lines[|lines| - 1];
      TextStarts(line, most);
      assert ([line] + lines)[..|lines|] == [line] + most;
      assert Text([line] + lines) == Text([line] + most) + last + "\n";
    }
  }

  lemma {:induction false} LinesOfText(lines: seq<string>)
    requires forall i :: 0 <= i < |lines| ==> OneLine(lines[i])
    ensures SplitLines(Text(lines)) == lines
  {
    if lines != [] {
      var line, rest := lines[0], lines[1..];
      TextStarts(line, rest);
      assert lines == [line] + rest;
      var s := Text(lines);
      assert s == line + "\n" + Text(rest);
      assert s[|line|] == '\n' && forall j :: 0 <= j < |line| ==> s[j] == line[j];
      assert Find(s, '\n') == |line|;
      assert s[..|line|] == line && s[|line| + 1..] == Text(rest);
      LinesOfText(rest);
    }
  }

  // ---- Fields ----

  function TrimReturns(s: string): (t: string)
    ensures t <= s
  {
    if s != "" && s[|s| - 1] == '\r' then TrimReturns(s[..|s| - 1]) else s
  }

  function TrimSpaces(s: string): string {
    if s != "" && s[0] == ' ' then TrimSpaces(s[1..]) else s
  }

  datatype Field = Field(key: string, value: string)

  /** `key: value`; comments and lines without a colon carry nothing. */
  function FieldOf(raw: string): Option<Field> {
    var line := TrimReturns(raw);
    var i := Find(line, ':');
    if line == "" || line[0] == '#' || i == |line| then None
    else Some(Field(line[..i], TrimSpaces(line[i + 1..])))
  }

  predicate IsBlankLine(raw: string) {
    TrimReturns(raw) == ""
  }

  datatype Row = Row(uid: string, uidNumber: string, gidNumber: string, shell: string, gecos: string)

  const EMPTY_ROW := Row("", "", "", "", "")

  function Assign(row: Row, f: Field): Row {
    if f.key == "uid" then row.(uid := f.value)
    else if f.key == "uidNumber" then row.(uidNumber := f.value)
    else if f.key == "gidNumber" then row.(gidNumber := f.value)
    else if f.key == "loginShell" then row.(shell := f.value)
    else if f.key == "gecos" then row.(gecos := f.value)
    else row
  }

  /** The row of one entry: of a repeated attribute the last value stays. */
  function RowOf(lines: seq<string>): Row {
    if lines == [] then EMPTY_ROW
    else
      var row := RowOf(lines[..|lines| - 1]);
      var f := FieldOf(lines[|lines| - 1]);
      if f.Some? then Assign(row, f.value) else row
  }

  /** An entry without a uid is no user. */
  function Kept(entry: seq<string>): seq<Row> {
    if RowOf(entry).uid == "" then [] else [RowOf(entry)]
  }

  /** Rows of the entries that blank lines separate; `entry` holds the lines already read of the first. */
  function Rows(lines: seq<string>, entry: seq<string>): seq<Row> {
    if lines == [] then Kept(entry)
    else if IsBlankLine(lines[0]) then Kept(entry) + Rows(lines[1..], [])
    else Rows(lines[1..], entry + [lines[0]])
  }

  // ---- Numbers ----

  function Number(s: string): nat
    requires Digits(s)
  {
    if s == "" then 0 else Number(s[..|s| - 1]) * 10 + (s[|s| - 1] as int - '0' as int)
  }

  /** Parsing an unsigned integer of bounded width; a leading plus sign is accepted. */
  function ParseUnsigned(s: string, max: nat): Option<nat> {
    var digits := if |s| > 1 && s[0] == '+' then s[1..] else s;
    if digits == "" || !Digits(digits) then None
    else if Number(digits) <= max then Some(Number(digits)) else None
  }

  function Decimal(n: nat): string {
    Pad(0, n)
  }

  lemma {:induction false} DecimalReadsBack(n: nat)
    ensures Decimal(n) != "" && Digits(Decimal(n)) && Number(Decimal(n)) == n
  {
    if n >= 10 {
      DecimalReadsBack(n / 10);
      assert Decimal(n) == Decimal(n / 10) + [Digit(n % 10)];
      assert Decimal(n)[..|Decimal(n)| - 1] == Decimal(n / 10);
    } else {
      assert Decimal(n) == [Digit(n)];
      assert Decimal(n)[..0] == "";
    }
  }

  lemma DecimalParses(n: nat, max: nat)
    ensures ParseUnsigned(Decimal(n), max) == ParseUnsigned("+" + Decimal(n), max) == if n <= max then Some(n) else None
  {
    hide Decimal, Number;
    DecimalReadsBack(n);
    assert Decimal(n)[0] != '+' && ("+" + Decimal(n))[1..] == Decimal(n);
  }

  // ---- The listing ----

  function SortNumber(row: Row): nat {
    ParseUnsigned(row.uidNumber, U64_MAX).GetOr(U64_MAX)
  }

  predicate RowLessEq(a: Row, b: Row) {
    SortNumber(a) < SortNumber(b) || (SortNumber(a) == SortNumber(b) && LessEq(a.uid, b.uid))
  }

  /** A user whose number cannot be read is listed behind every number that can. */
  lemma UnreadableIsLast(a: Row, b: Row)
    requires ParseUnsigned(b.uidNumber, U64_MAX).None?
    ensures match ParseUnsigned(a.uidNumber, U64_MAX)
            case Some(n) => n < U64_MAX ==> RowLessEq(a, b) && !RowLessEq(b, a)
            case None => RowLessEq(a, b) <==> LessEq(a.uid, b.uid)
  {
  }

  predicate AllOf(s: string, c: char) {
    forall i :: 0 <= i < |s| ==> s[i] == c
  }

  lemma {:induction false} ReturnsTrimmed(s: string)
    ensures AllOf(s[|TrimReturns(s)|..], '\r')
    ensures TrimReturns(s) == "" || TrimReturns(s)[|TrimReturns(s)| - 1] != '\r'
  {
    if s != "" && s[|s| - 1] == '\r' {
      ReturnsTrimmed(s[..|s| - 1]);
    }
  }

  lemma {:induction false} ReturnsBehind(s: string, ends: string)
    requires AllOf(ends, '\r') && (s == "" || s[|s| - 1] != '\r')
    ensures TrimReturns(s + ends) == s
    decreases |ends|
  {
    if ends == "" {
      assert s + ends == s;
    } else {
      ReturnsBehind(s, ends[..|ends| - 1]);
      assert (s + ends)[..|s + ends| - 1] == s + ends[..|ends| - 1];
    }
  }

  lemma {:induction false} SpacesTrimmed(s: string) returns (spaces: string)
    ensures s == spaces + TrimSpaces(s) && AllOf(spaces, ' ')
    ensures TrimSpaces(s) == "" || TrimSpaces(s)[0] != ' '
  {
    if s != "" && s[0] == ' ' {
      var more := SpacesTrimmed(s[1..]);
      spaces := [s[0]] + more;
    } else {
      spaces := "";
    }
  }

  lemma {:induction false} SpacesBefore(spaces: string, s: string)
    requires AllOf(spaces, ' ') && (s == "" || s[0] != ' ')
    ensures TrimSpaces(spaces + s) == s
  {
    if spaces == "" {
      assert spaces + s == s;
    } else {
      SpacesBefore(spaces[1..], s);
      assert (spaces + s)[1..] == spaces[1..] + s;
    }
  }

  /** The line is the field, with spaces before its value and carriage returns behind. */
  ghost predicate SpellsField(raw: string, f: Field, spaces: string, ends: string) {
    && raw == f.key + ":" + spaces + f.value + ends && AllOf(spaces, ' ') && AllOf(ends, '\r')
    && ':' !in f.key && (f.key == "" || f.key[0] != '#')
    && (f.value == "" || (f.value[0] != ' ' && f.value[|f.value| - 1] != '\r'))
  }

  lemma FieldSpelled(raw: string, f: Field, spaces: string, ends: string)
    requires SpellsField(raw, f, spaces, ends)
    ensures FieldOf(raw) == Some(f)
  {
    hide TrimReturns, TrimSpaces, Find;
    var line := f.key + ":" + spaces + f.value;
    assert line[|line| - 1] != '\r';
    ReturnsBehind(line, ends);
    assert line == f.key + [':'] + (spaces + f.value);
    FindBehind(f.key, ':', spaces + f.value);
    assert line[..|f.key|] == f.key && line[|f.key| + 1..] == spaces + f.value;
    SpacesBefore(spaces, f.value);
  }

  lemma FieldSpelling(raw: string) returns (spaces: string, ends: string)
    requires FieldOf(raw).Some?
    ensures SpellsField(raw, FieldOf(raw).value, spaces, ends)
  {
    hide TrimReturns, TrimSpaces, Find, AllOf;
    var line, f := TrimReturns(raw), FieldOf(raw).value;
    ReturnsTrimmed(raw);
    ends := raw[|line|..];
    var i := Find(line, ':');
    spaces := SpacesTrimmed(line[i + 1..]);
    LineParts(line, i, spaces, f.value);
    assert raw == line + ends;
  }

  /** A line around its first colon. */
  lemma LineParts(line: string, i: nat, spaces: string, value: string)
    requires i < |line| && line[i] == ':' && line[i + 1..] == spaces + value
    requires forall j :: 0 <= j < i ==> line[j] != ':'
    ensures line == line[..i] + ":" + spaces + value && ':' !in line[..i] && (i > 0 ==> line[..i][0] == line[0])
    ensures value != "" ==> value[|value| - 1] == line[|line| - 1]
  {
    assert line == line[..i] + [':'] + line[i + 1..];
    assert line[..i] + ":" + (spaces + value) == line[..i] + ":" + spaces + value;
    if value != "" {
      assert line[i + 1..][|line[i + 1..]| - 1] == line[|line| - 1];
    }
  }

  /** A line carries a field exactly when it spells one: a comment or a line without a colon spells none. */
  lemma FieldExactly(raw: string, f: Field)
    ensures FieldOf(raw) == Some(f) <==> exists spaces, ends :: SpellsField(raw, f, spaces, ends)
  {
    hide FieldOf;
    if FieldOf(raw) == Some(f) {
      var spaces, ends := FieldSpelling(raw);
    }
    forall spaces, ends | SpellsField(raw, f, spaces, ends) ensures FieldOf(raw) == Some(f) {
      FieldSpelled(raw, f, spaces, ends);
    }
  }

  lemma NoEntry()
    ensures RowOf([]) == EMPTY_ROW
  {
  }

  lemma RowOfMore(entry: seq<string>, line: string)
    ensures RowOf(entry + [line]) ==
              match FieldOf(line) case None => RowOf(entry) case Some(f) => Assign(RowOf(entry), f)
  {
    hide FieldOf, Assign;
    assert (entry + [line])[..|entry|] == entry;
  }

  lemma RowsStep(lines: seq<string>, entry: seq<string>, before: seq<Row>)
    requires lines != []
    ensures before + Rows(lines, entry) ==
            if IsBlankLine(lines[0]) then before + Kept(entry) + Rows(lines[1..], [])
            else before + Rows(lines[1..], entry + [lines[0]])
  {
    hide RowOf, IsBlankLine, Kept;
    assert before + (Kept(entry) + Rows(lines[1..], [])) == before + Kept(entry) + Rows(lines[1..], []);
  }

  lemma NoRows(entry: seq<string>)
    ensures Rows([], entry) == Kept(entry)
  {
    hide RowOf;
  }

  method Flush(cur: Row, started: bool, rows: seq<Row>) returns (kept: seq<Row>)
    ensures kept == if started && cur.uid != "" then rows + [cur] else rows
  {
    kept := rows;
    if started && cur.uid != "" {
      kept := kept + [cur];
    }
  }

  method ParseLdifUserRows(ldif: string) returns (rows: seq<Row>)
    ensures rows == StableSort(Rows(SplitLines(ldif), []), RowLessEq)
  {
    hide Assign, FieldOf, RowOf, Rows, RowLessEq, TrimReturns, StableSort, SplitLines;
    var lines := SplitLines(ldif);
    NoEntry();
    rows := [];
    var cur, started := EMPTY_ROW, false;
    ghost var entry, rest: seq<string> := [], lines;
    for i := 0 to |lines|
      invariant rest == lines[i..]
      invariant cur == RowOf(entry) && (!started ==> cur == EMPTY_ROW)
      invariant rows + Rows(rest, entry) == Rows(lines, [])
    {
      var line := TrimReturns(lines[i]);
      assert rest[0] == lines[i];
      RowsStep(rest, entry, rows);
      rest := rest[1..];
      if line == "" {
        rows := Flush(cur, started, rows);
        cur, started, entry := EMPTY_ROW, false, [];
        continue;
      }
      RowOfMore(entry, lines[i]);
      entry := entry + [lines[i]];
      var f := FieldOf(lines[i]);
      if f.None? {
        continue;
      }
      started := true;
      cur := Assign(cur, f.value);
    }
    assert rest == [];
    NoRows(entry);
    rows := Flush(cur, started, rows);
    assert rows == Rows(lines, []);
    rows := StableSort(rows, RowLessEq);
  }

  // ---- Rendering ----

  type Uid = n: int | 0 <= n < 0x1_0000_0000

  datatype NewUser = NewUser(username: string, uid: Uid, gid: Uid, gecos: string, shell: string, sshKeys: seq<string>)

  function Line(key: string, value: string): string {
    key + ": " + value
  }

  function KeyLines(keys: seq<string>): seq<string> {
    if keys == [] then [] else KeyLines(keys[..|keys| - 1]) + [Line("sshPublicKey", Trim(keys[|keys| - 1]))]
  }

  /** Entry name and object classes. */
  function ObjectLines(u: NewUser): seq<string> {
    [Line("dn", "uid=" + u.username + ",ou=people," + BASE_DN)]
    + [Line("objectClass", "top")]
    + [Line("objectClass", "account")]
    + [Line("objectClass", "posixAccount")]
    + [Line("objectClass", "shadowAccount")]
    + [Line("objectClass", "ldapPublicKey")]
  }

  function UserHead(u: NewUser): seq<string> {
    ObjectLines(u)
    + [Line("uid", u.username)]
    + [Line("cn", u.username)]
    + [Line("uidNumber", Decimal(u.uid))]
    + [Line("gidNumber", Decimal(u.gid))]
    + [Line("homeDirectory", "/shared/home/" + u.username)]
    + [Line("loginShell", u.shell)]
    + [Line("gecos", u.gecos)]
  }

  function UserLines(u: NewUser): seq<string> {
    UserHead(u) + KeyLines(u.sshKeys)
  }

  method PushLine(s: string, ghost lines: seq<string>, line: string) returns (t: string, ghost more: seq<string>)
    requires s == Text(lines)
    ensures t == Text(more) && more == lines + [line]
  {
    more := lines + [line];
    assert more[..|lines|] == lines;
    t := s + line + "\n";
  }

  method RenderObjects(u: NewUser) returns (s: string)
    ensures s == Text(ObjectLines(u))
  {
    hide Line, Text;
    ghost var lines: seq<string> := [];
    s := "";
    NoText();
    s, lines := PushLine(s, lines, Line("dn", "uid=" + u.username + ",ou=people," + BASE_DN));
    s, lines := PushLine(s, lines, Line("objectClass", "top"));
    s, lines := PushLine(s, lines, Line("objectClass", "account"));
    s, lines := PushLine(s, lines, Line("objectClass", "posixAccount"));
    s, lines := PushLine(s, lines, Line("objectClass", "shadowAccount"));
    s, lines := PushLine(s, lines, Line("objectClass", "ldapPublicKey"));
    assert lines == ObjectLines(u);
  }

  method RenderAccount(u: NewUser, objects: string) returns (s: string)
    requires objects == Text(ObjectLines(u))
    ensures s == Text(UserHead(u))
  {
    hide Line, Decimal, Text, ObjectLines;
    ghost var lines := ObjectLines(u);
    s := objects;
    s, lines := PushLine(s, lines, Line("uid", u.username));
    s, lines := PushLine(s, lines, Line("cn", u.username));
    s, lines := PushLine(s, lines, Line("uidNumber", Decimal(u.uid)));
    s, lines := PushLine(s, lines, Line("gidNumber", Decimal(u.gid)));
    s, lines := PushLine(s, lines, Line("homeDirectory", "/shared/home/" + u.username));
    s, lines := PushLine(s, lines, Line("loginShell", u.shell));
    s, lines := PushLine(s, lines, Line("gecos", u.gecos));
  }

  method RenderUserAddLdif(u: NewUser) returns (s: string)
    ensures s == Text(UserLines(u))
  {
    hide Line, Trim, Text, UserHead;
    s := RenderObjects(u);
    s := RenderAccount(u, s);
    ghost var lines := UserHead(u);
    for i := 0 to |u.sshKeys|
      invariant s == Text(lines) && lines == UserHead(u) + KeyLines(u.sshKeys[..i])
    {
      assert u.sshKeys[..i + 1][..i] == u.sshKeys[..i];
      s, lines := PushLine(s, lines, Line("sshPublicKey", Trim(u.sshKeys[i])));
    }
    assert u.sshKeys[..|u.sshKeys|] == u.sshKeys;
  }

  /** The number after a given one, in 32 bits as a release build computes it. */
  function NextUid(uid: Uid): Uid {
    (uid + 1) % 0x1_0000_0000
  }

  function BumpLines(uid: Uid): seq<string> {
    [Line("dn", "cn=uidNext," + BASE_DN)]
    + [Line("changetype", "modify")]
    + [Line("replace", "uidNumber")]
    + [Line("uidNumber", Decimal(NextUid(uid)))]
  }

  // ---- Reading back what was rendered ----

  datatype Record = User(user: NewUser) | Bump(uid: Uid)

  function RecordLines(r: Record): seq<string> {
    match r
    case User(u) => UserLines(u)
    case Bump(uid) => BumpLines(uid)
  }

  /** Records separated by a blank line. */
  function Joined(records: seq<Record>): seq<string> {
    if records == [] then []
    else if |records| == 1 then RecordLines(records[0])
    else RecordLines(records[0]) + [""] + Joined(records[1..])
  }

  function UsersOf(records: seq<Record>): seq<NewUser> {
    if records == [] then []
    else (if records[0].User? then [records[0].user] else []) + UsersOf(records[1..])
  }

  function RowFor(u: NewUser): Row {
    Row(u.username, Decimal(u.uid), Decimal(u.gid), u.shell, u.gecos)
  }

  function RowsFor(users: seq<NewUser>): (rows: seq<Row>)
    ensures |rows| == |users|
    ensures forall i :: 0 <= i < |users| ==> rows[i] == RowFor(users[i])
  {
    if users == [] then [] else [RowFor(users[0])] + RowsFor(users[1..])
  }

  /** A value that fits on one line of LDIF as it is: it neither starts with a space nor ends with a carriage return. */
  predicate IsValue(s: string) {
    OneLine(s) && (s == "" || (s[0] != ' ' && s[|s| - 1] != '\r'))
  }

  predicate Representable(u: NewUser) {
    && u.username != "" && IsValue(u.username) && IsValue(u.shell) && IsValue(u.gecos)
    && (forall i :: 0 <= i < |u.sshKeys| ==> OneLine(Trim(u.sshKeys[i])))
  }

  predicate IsKey(key: string) {
    key != "" && key[0] != '#' && OneLine(key) && forall i :: 0 <= i < |key| ==> key[i] != ':' && key[i] != '\r'
  }

  lemma {:induction false} TrimReturnsBehind(head: string, tail: string)
    requires head != "" && head[|head| - 1] != '\r'
    ensures TrimReturns(head + tail) == head + TrimReturns(tail)
    decreases |tail|
  {
    if tail == "" {
      assert head + tail == head;
    } else if tail[|tail| - 1] == '\r' {
      TrimReturnsBehind(head, tail[..|tail| - 1]);
      assert (head + tail)[..|head + tail| - 1] == head + tail[..|tail| - 1];
    }
  }

  lemma FindBehind(head: string, c: char, tail: string)
    requires forall i :: 0 <= i < |head| ==> head[i] != c
    ensures Find(head + [c] + tail, c) == |head|
  {
    var s := head + [c] + tail;
    assert s[|head|] == c;
    assert forall j :: 0 <= j < |head| ==> s[j] == head[j];
  }

  lemma TrimmedLine(key: string, value: string)
    ensures TrimReturns(Line(key, value)) == Line(key, TrimReturns(value))
  {
    TrimReturnsBehind(key + ": ", value);
  }

  lemma ColonOfLine(key: string, value: string)
    requires IsKey(key)
    ensures var line := Line(key, value);
            && Find(line, ':') == |key| < |line| && line[..|key|] == key && line[|key| + 1..] == " " + value
            && line[0] == key[0]
  {
    hide Find;
    var line := Line(key, value);
    assert line == key + [':'] + (" " + value);
    FindBehind(key, ':', " " + value);
  }

  lemma LeadingSpace(value: string)
    ensures TrimSpaces(" " + value) == TrimSpaces(value)
  {
    assert (" " + value)[1..] == value;
  }

  /** A line carries the field it was rendered from, its value trimmed. */
  lemma FieldOfLine(key: string, value: string)
    requires IsKey(key)
    ensures FieldOf(Line(key, value)) == Some(Field(key, TrimSpaces(TrimReturns(value))))
    ensures !IsBlankLine(Line(key, value))
  {
    hide TrimReturns, Find, Line, TrimSpaces;
    TrimmedLine(key, value);
    ColonOfLine(key, TrimReturns(value));
    LeadingSpace(TrimReturns(value));
  }

  lemma LineIsOneLine(key: string, value: string)
    requires IsKey(key) && OneLine(value)
    ensures OneLine(Line(key, value))
  {
  }

  ghost predicate Readable(lines: seq<string>) {
    forall i :: 0 <= i < |lines| ==> OneLine(lines[i]) && !IsBlankLine(lines[i])
  }

  lemma EntryGrows(lines: seq<string>, key: string, value: string)
    requires IsKey(key) && OneLine(value) && Readable(lines)
    ensures Readable(lines + [Line(key, value)])
    ensures RowOf(lines + [Line(key, value)]) == Assign(RowOf(lines), Field(key, TrimSpaces(TrimReturns(value))))
  {
    hide FieldOf, Assign, IsBlankLine, OneLine, IsKey, TrimSpaces, TrimReturns, Line;
    FieldOfLine(key, value);
    LineIsOneLine(key, value);
    assert (lines + [Line(key, value)])[..|lines|] == lines;
  }

  /** Attributes the listing has no column for. */
  predicate IsIgnored(key: string) {
    key == "dn" || key == "objectClass" || key == "cn" || key == "homeDirectory" || key == "sshPublicKey"
    || key == "changetype" || key == "replace"
  }

  lemma IgnoredKey(key: string)
    requires IsIgnored(key)
    ensures IsKey(key) && key != "uid" && key != "uidNumber" && key != "gidNumber" && key != "loginShell"
              && key != "gecos"
  {
    hide IsKey;
    IgnoredIsKey(key);
    assert "replace"[0] != "gecos"[0];
  }

  lemma IgnoredIsKey(key: string)
    requires IsIgnored(key)
    ensures IsKey(key)
  {
  }

  lemma EntryIgnores(lines: seq<string>, key: string, value: string)
    requires IsIgnored(key) && OneLine(value) && Readable(lines)
    ensures Readable(lines + [Line(key, value)]) && RowOf(lines + [Line(key, value)]) == RowOf(lines)
  {
    hide RowOf, Readable, IsKey, OneLine, IsIgnored, TrimSpaces, TrimReturns, Line;
    IgnoredKey(key);
    EntryGrows(lines, key, value);
  }

  lemma ColumnKeys()
    ensures IsKey("uid") && IsKey("uidNumber") && IsKey("gidNumber") && IsKey("loginShell") && IsKey("gecos")
    ensures "uid" != "uidNumber" && "uid" != "gidNumber" && "uidNumber" != "gidNumber"
    ensures "loginShell" != "uid" && "loginShell" != "uidNumber" && "loginShell" != "gidNumber"
              && "loginShell" != "gecos"
    ensures "gecos" != "uid" && "gecos" != "uidNumber" && "gecos" != "gidNumber"
  {
    assert "uidNumber"[0] != "gidNumber"[0];
  }

  /** Reading gives a one-line value back exactly when it is representable. */
  lemma ValueStays(value: string)
    requires OneLine(value)
    ensures TrimSpaces(TrimReturns(value)) == value <==> IsValue(value)
  {
    TrimSpacesShortens(TrimReturns(value));
  }

  lemma {:induction false} TrimSpacesShortens(s: string)
    ensures |TrimSpaces(s)| <= |s| && (s != "" && s[0] == ' ' ==> |TrimSpaces(s)| < |s|)
  {
    if s != "" && s[0] == ' ' {
      TrimSpacesShortens(s[1..]);
    }
  }

  lemma DecimalIsValue(n: nat)
    ensures IsValue(Decimal(n))
  {
    DecimalReadsBack(n);
  }

  lemma UserTexts(username: string)
    requires OneLine(username)
    ensures OneLine("uid=" + username + ",ou=people," + BASE_DN) && OneLine("/shared/home/" + username)
    ensures OneLine("cn=uidNext," + BASE_DN)
    ensures OneLine("top") && OneLine("account") && OneLine("posixAccount") && OneLine("shadowAccount")
    ensures OneLine("ldapPublicKey") && OneLine("modify") && OneLine("uidNumber")
  {
    assert OneLine(BASE_DN) && OneLine("uid=") && OneLine(",ou=people,") && OneLine("/shared/home/")
          && OneLine("cn=uidNext,");
  }

  lemma ObjectsRead(u: NewUser)
    requires OneLine(u.username)
    ensures Readable(ObjectLines(u)) && RowOf(ObjectLines(u)) == EMPTY_ROW
  {
    hide Readable, OneLine, Line, RowOf, IsIgnored;
    UserTexts(u.username);
    NoLines();
    ObjectKeys();
    var lines := Ignore([], "dn", "uid=" + u.username + ",ou=people," + BASE_DN);
    lines := Ignore(lines, "objectClass", "top");
    lines := Ignore(lines, "objectClass", "account");
    lines := Ignore(lines, "objectClass", "posixAccount");
    lines := Ignore(lines, "objectClass", "shadowAccount");
    lines := Ignore(lines, "objectClass", "ldapPublicKey");
    assert lines == ObjectLines(u);
  }

  lemma ObjectKeys()
    ensures IsIgnored("dn") && IsIgnored("objectClass")
  {
  }

  lemma NoLines()
    ensures Readable([]) && RowOf([]) == EMPTY_ROW
  {
  }

  lemma Ignore(lines: seq<string>, key: string, value: string) returns (more: seq<string>)
    requires IsIgnored(key) && OneLine(value) && Readable(lines)
    ensures more == lines + [Line(key, value)] && Readable(more) && RowOf(more) == RowOf(lines)
  {
    more := lines + [Line(key, value)];
    EntryIgnores(lines, key, value);
  }

  lemma Set(lines: seq<string>, key: string, value: string) returns (more: seq<string>)
    requires IsKey(key) && IsValue(value) && Readable(lines)
    ensures more == lines + [Line(key, value)] && Readable(more)
    ensures RowOf(more) == Assign(RowOf(lines), Field(key, value))
  {
    hide RowOf, Assign, Readable, IsKey, TrimSpaces, TrimReturns, Line;
    more := lines + [Line(key, value)];
    ValueIsOneLine(value);
    ValueStays(value);
    EntryGrows(lines, key, value);
  }

  lemma HeadReads(u: NewUser)
    requires Representable(u)
    ensures Readable(UserHead(u)) && RowOf(UserHead(u)) == RowFor(u)
  {
    hide Readable, OneLine, Line, Decimal, IsValue, IsKey, RowOf, ObjectLines;
    assert OneLine(u.username) by { ValueIsOneLine(u.username); }
    UserTexts(u.username);
    DecimalIsValue(u.uid);
    DecimalIsValue(u.gid);
    ColumnKeys();
    ObjectsRead(u);
    var lines := ObjectLines(u);
    lines := Set(lines, "uid", u.username);
    lines := Ignore(lines, "cn", u.username);
    lines := Set(lines, "uidNumber", Decimal(u.uid));
    lines := Set(lines, "gidNumber", Decimal(u.gid));
    lines := Ignore(lines, "homeDirectory", "/shared/home/" + u.username);
    lines := Set(lines, "loginShell", u.shell);
    lines := Set(lines, "gecos", u.gecos);
  }

  lemma EmptyIsValue()
    ensures IsValue("")
  {
  }

  lemma ValueIsOneLine(s: string)
    requires IsValue(s)
    ensures OneLine(s)
  {
  }

  lemma {:induction false} KeyLinesRead(lines: seq<string>, keys: seq<string>)
    requires Readable(lines) && forall i :: 0 <= i < |keys| ==> OneLine(Trim(keys[i]))
    ensures Readable(lines + KeyLines(keys)) && RowOf(lines + KeyLines(keys)) == RowOf(lines)
    decreases |keys|
  {
    hide Readable, OneLine, Line, RowOf, Trim;
    if keys == [] {
      assert lines + KeyLines(keys) == lines;
    } else {
      var most := keys[..|keys| - 1];
      KeyLinesRead(lines, most);
      EntryIgnores(lines + KeyLines(most), "sshPublicKey", Trim(keys[|keys| - 1]));
      assert lines + KeyLines(keys) == lines + KeyLines(most) + [Line("sshPublicKey", Trim(keys[|keys| - 1]))];
    }
  }

  lemma UserReads(u: NewUser)
    requires Representable(u)
    ensures Readable(UserLines(u)) && RowOf(UserLines(u)) == RowFor(u)
  {
    hide Readable, OneLine, UserHead, RowOf;
    HeadReads(u);
    KeyLinesRead(UserHead(u), u.sshKeys);
  }

  /** The counter's record has a number but no uid. */
  lemma BumpReads(uid: Uid)
    ensures Readable(BumpLines(uid)) && RowOf(BumpLines(uid)).uid == ""
  {
    hide Readable, OneLine, Line, Decimal, RowOf;
    EmptyIsValue();
    ValueIsOneLine("");
    UserTexts("");
    NoLines();
    ColumnKeys();
    DecimalIsValue(NextUid(uid));
    var lines := Ignore([], "dn", "cn=uidNext," + BASE_DN);
    lines := Ignore(lines, "changetype", "modify");
    lines := Ignore(lines, "replace", "uidNumber");
    lines := Set(lines, "uidNumber", Decimal(NextUid(uid)));
    assert lines == BumpLines(uid);
  }

  // ---- The listing of rendered records ----

  lemma {:induction false} EntryIsRead(entry: seq<string>, more: seq<string>, before: seq<string>)
    requires Readable(entry)
    ensures Rows(entry + more, before) == Rows(more, before + entry)
  {
    hide RowOf, IsBlankLine, OneLine;
    if entry == [] {
      assert entry + more == more && before + entry == before;
    } else {
      EntryIsRead(entry[1..], more, before + [entry[0]]);
      assert (entry + more)[1..] == entry[1..] + more;
      assert before + [entry[0]] + entry[1..] == before + entry;
    }
  }

  predicate AllRepresentable(records: seq<Record>) {
    forall i :: 0 <= i < |records| && records[i].User? ==> Representable(records[i].user)
  }

  lemma RecordReads(r: Record)
    requires r.User? ==> Representable(r.user)
    ensures Readable(RecordLines(r))
    ensures Kept(RecordLines(r)) == if r.User? then [RowFor(r.user)] else []
  {
    hide Readable, RowOf, UserLines, BumpLines;
    match r {
      case User(u) => UserReads(u);
      case Bump(uid) => BumpReads(uid);
    }
  }

  lemma {:induction false} JoinedLines(records: seq<Record>)
    requires AllRepresentable(records)
    ensures OneLined(Joined(records))
  {
    hide Readable, RecordLines, OneLine;
    if records != [] {
      RecordReads(records[0]);
      OneLineOfReadable(RecordLines(records[0]));
      JoinedLines(records[1..]);
      EmptyIsValue();
      ValueIsOneLine("");
    }
  }

  lemma {:induction false} JoinedRead(records: seq<Record>)
    requires AllRepresentable(records)
    ensures Rows(Joined(records), []) == RowsFor(UsersOf(records))
  {
    hide Readable, RecordLines, Rows, Kept, RowFor, Representable;
    if records == [] {
      NothingKept();
    } else {
      var first, rest := RecordLines(records[0]), Joined(records[1..]);
      RecordReads(records[0]);
      JoinedRead(records[1..]);
      if |records| == 1 {
        LastEntry(first);
        assert UsersOf(records[1..]) == [];
      } else {
        NextEntry(first, rest);
      }
    }
  }

  lemma NothingKept()
    ensures Rows([], []) == []
  {
  }

  lemma LastEntry(entry: seq<string>)
    requires Readable(entry)
    ensures Rows(entry, []) == Kept(entry)
  {
    hide Readable, RowOf;
    EntryIsRead(entry, [], []);
    assert entry + [] == entry && [] + entry == entry;
  }

  lemma NextEntry(entry: seq<string>, rest: seq<string>)
    requires Readable(entry)
    ensures Rows(entry + [""] + rest, []) == Kept(entry) + Rows(rest, [])
  {
    hide Readable, Kept;
    EntryIsRead(entry, [""] + rest, []);
    BlankSeparates(entry, rest);
    assert entry + ([""] + rest) == entry + [""] + rest && [] + entry == entry;
  }

  /** No line breaks inside lines. */
  ghost predicate OneLined(lines: seq<string>) {
    forall i :: 0 <= i < |lines| ==> OneLine(lines[i])
  }

  lemma OneLineOfReadable(lines: seq<string>)
    requires Readable(lines)
    ensures OneLined(lines)
  {
    hide OneLine, IsBlankLine;
  }

  lemma BlankSeparates(entry: seq<string>, rest: seq<string>)
    ensures Rows([""] + rest, entry) == Kept(entry) + Rows(rest, [])
  {
    hide RowOf;
    assert ([""] + rest)[1..] == rest;
    assert IsBlankLine("");
  }

  // ---- Order of the listing ----

  predicate UserLessEq(a: NewUser, b: NewUser) {
    a.uid < b.uid || (a.uid == b.uid && LessEq(a.username, b.username))
  }

  lemma SameOrder(a: NewUser, b: NewUser)
    ensures RowLessEq(RowFor(a), RowFor(b)) <==> UserLessEq(a, b)
  {
    DecimalParses(a.uid, U64_MAX);
    DecimalParses(b.uid, U64_MAX);
  }

  lemma {:induction false} InsertRow(u: NewUser, users: seq<NewUser>)
    ensures Insert(RowFor(u), RowsFor(users), RowLessEq) == RowsFor(Insert(u, users, UserLessEq))
  {
    hide RowFor, RowLessEq, UserLessEq;
    if users == [] {
      assert [RowFor(u)] + RowsFor([]) == RowsFor([u]);
    } else {
      SameOrder(u, users[0]);
      assert RowsFor(users)[0] == RowFor(users[0]) && RowsFor(users)[1..] == RowsFor(users[1..]);
      if UserLessEq(u, users[0]) {
        assert ([u] + users)[1..] == users;
      } else {
        InsertRow(u, users[1..]);
        var inner := Insert(u, users[1..], UserLessEq);
        assert ([users[0]] + inner)[1..] == inner;
      }
    }
  }

  lemma {:induction false} SortRows(users: seq<NewUser>)
    ensures StableSort(RowsFor(users), RowLessEq) == RowsFor(StableSort(users, UserLessEq))
  {
    hide RowFor, RowLessEq, UserLessEq;
    if users != [] {
      SortRows(users[1..]);
      InsertRow(users[0], StableSort(users[1..], UserLessEq));
      assert RowsFor(users)[1..] == RowsFor(users[1..]);
    }
  }

  lemma UsersTotal()
    ensures TotalPreorder(UserLessEq)
  {
    forall x: NewUser, y: NewUser ensures UserLessEq(x, y) || UserLessEq(y, x) {
      LessTotal(x.username, y.username);
    }
    forall x: NewUser, y: NewUser, z: NewUser | UserLessEq(x, y) && UserLessEq(y, z) ensures UserLessEq(x, z) {
      if Less(x.username, y.username) && Less(y.username, z.username) {
        LessTransitive(x.username, y.username, z.username);
      }
    }
  }

  /** The records' texts with a line break between them. */
  function RenderAll(records: seq<Record>): string {
    if records == [] then ""
    else if |records| == 1 then Text(RecordLines(records[0]))
    else Text(RecordLines(records[0])) + "\n" + RenderAll(records[1..])
  }

  lemma {:induction false} TextJoins(a: seq<string>, b: seq<string>)
    ensures Text(a + b) == Text(a) + Text(b)
    decreases |b|
  {
    if b == [] {
      assert a + b == a;
    } else {
      TextJoins(a, b[..|b| - 1]);
      assert (a + b)[..|a + b| - 1] == a + b[..|b| - 1];
    }
  }

  lemma SeparatedText(a: seq<string>, b: seq<string>)
    ensures Text(a + [""] + b) == Text(a) + "\n" + Text(b)
  {
    hide Text;
    TextStarts("", b);
    TextJoins(a, [""] + b);
    assert a + ([""] + b) == a + [""] + b;
    assert "" + "\n" == "\n";
  }

  lemma {:induction false} RenderedText(records: seq<Record>)
    ensures RenderAll(records) == Text(Joined(records))
  {
    hide RecordLines, Text;
    if records == [] {
      NoText();
    } else if |records| > 1 {
      RenderedText(records[1..]);
      var first, rest := RecordLines(records[0]), Joined(records[1..]);
      SeparatedText(first, rest);
    }
  }

  /**
   The listing of any rendered records: one row for every user and none for the uid counter, every
   field as it was given, by uid number and then by name.
   */
  lemma ListingRoundTrip(records: seq<Record>)
    requires AllRepresentable(records)
    ensures var sorted := StableSort(UsersOf(records), UserLessEq);
            && StableSort(Rows(SplitLines(RenderAll(records)), []), RowLessEq) == RowsFor(sorted)
            && multiset(sorted) == multiset(UsersOf(records)) && Ascending(sorted, UserLessEq)
  {
    hide UserLessEq, RowLessEq, Rows, Joined, RowFor;
    RenderedText(records);
    JoinedLines(records);
    JoinedRead(records);
    LinesOfText(Joined(records));
    SortRows(UsersOf(records));
    UsersTotal();
    StableSortOrders(UsersOf(records), UserLessEq);
  }

  // ---- Users that are added ----

  lemma {:induction false} TrimKeepsOneLine(s: string)
    requires OneLine(s)
    ensures OneLine(Trim(s))
  {
    TrimStartKeepsOneLine(s);
    TrimEndKeepsOneLine(TrimStart(s));
  }

  lemma {:induction false} TrimStartKeepsOneLine(s: string)
    requires OneLine(s)
    ensures OneLine(TrimStart(s))
  {
    if s != "" && IsSpace(s[0]) {
      TrimStartKeepsOneLine(s[1..]);
    }
  }

  lemma {:induction false} TrimEndKeepsOneLine(s: string)
    requires OneLine(s)
    ensures OneLine(TrimEnd(s))
  {
    if s != "" && IsSpace(s[|s| - 1]) {
      TrimEndKeepsOneLine(s[..|s| - 1]);
    }
  }

  /** Keys come from lines of files: a user with a representable name, shell and comment is representable. */
  lemma KeysFromLines(u: NewUser)
    requires u.username != "" && IsValue(u.username) && IsValue(u.shell) && IsValue(u.gecos)
    requires forall i :: 0 <= i < |u.sshKeys| ==> OneLine(u.sshKeys[i])
    ensures Representable(u)
  {
    hide Trim;
    forall i | 0 <= i < |u.sshKeys| ensures OneLine(Trim(u.sshKeys[i])) {
      TrimKeepsOneLine(u.sshKeys[i]);
    }
  }
}
