/**
 Shell quoting. A word reader follows section 2.2 (Quoting) of the Shell Command Language for every
 text without expansions; the literals that the operator scripts and the LDAP commands are built from
 are read back by it.
 */
module Shell {
  import opened Base64
  import opened Wrappers

  // ---- Reading words ----

  datatype Mode = Bare | Single | Double

  predicate IsBlank(c: char) {
    c == ' ' || c == '\t'
  }

  predicate IsOperator(c: char) {
    c in ['\n', '|', '&', ';', '<', '>', '(', ')']
  }

  /** Characters that start an expansion or a comment, which this reader does not follow. */
  predicate IsExpansion(c: char) {
    c in ['$', '`', '*', '?', '[', '~', '#']
  }

  datatype Read = Read(word: string, rest: string)

  function Prepend(s: string, r: Option<Read>): Option<Read> {
    if r.Some? then Some(Read(s + r.value.word, r.value.rest)) else None
  }

  /** The rest of a word after quote removal, and the text behind it; None when a quote stays open. */
  function ReadWord(s: string, mode: Mode): (r: Option<Read>)
    ensures r.Some? ==> |r.value.rest| <= |s|
  {
    if s == "" then
      if mode == Bare then Some(Read("", "")) else None
    else
      var c, more := s[0], s[1..];
      match mode
      case Bare =>
        if IsBlank(c) || IsOperator(c) then Some(Read("", s))
        else if IsExpansion(c) then None
        else if c == '\'' then ReadWord(more, Single)
        else if c == '"' then ReadWord(more, Double)
        else if c == '\\' then
          if more == "" then None
          else if more[0] == '\n' then ReadWord(more[1..], Bare)
          else Prepend([more[0]], ReadWord(more[1..], Bare))
        else Prepend([c], ReadWord(more, Bare))
      case Single =>
        if c == '\'' then ReadWord(more, Bare)
        else Prepend([c], ReadWord(more, Single))
      case Double =>
        if c == '"' then ReadWord(more, Bare)
        else if c == '$' || c == '`' then None
        else if c == '\\' && more != "" && more[0] == '\n' then ReadWord(more[1..], Double)
        else if c == '\\' && more != "" && more[0] in ['$', '`', '"', '\\'] then
          Prepend([more[0]], ReadWord(more[1..], Double))
        else Prepend([c], ReadWord(more, Double))
  }

  lemma {:induction false} WordAdvances(s: string)
    requires s != "" && !IsBlank(s[0]) && !IsOperator(s[0]) && ReadWord(s, Bare).Some?
    ensures |ReadWord(s, Bare).value.rest| < |s|
  {
  }

  function SkipBlanks(s: string): (r: string)
    ensures |r| <= |s| && (r == "" || !IsBlank(r[0]))
  {
    if s != "" && IsBlank(s[0]) then SkipBlanks(s[1..]) else s
  }

  datatype Command = Command(words: seq<string>, rest: string)

  /** The words of a simple command up to the next operator. */
  function ReadCommand(s: string): Option<Command>
    decreases |s|
  {
    var t := SkipBlanks(s);
    if t == "" || IsOperator(t[0]) then Some(Command([], t))
    else
      var first := ReadWord(t, Bare);
      if first.None? then None
      else
        assert |first.value.rest| < |t| by { WordAdvances(t); }
        var others := ReadCommand(first.value.rest);
        if others.None? then None
        else Some(Command([first.value.word] + others.value.words, others.value.rest))
  }

  // ---- single_quote ----

  /** Every apostrophe closes the quotation, is escaped, and opens it again. */
  function EscapeQuotes(s: string): string {
    if s == "" then ""
    else (if s[0] == '\'' then "'\\''" else [s[0]]) + EscapeQuotes(s[1..])
  }

  function SingleQuote(s: string): string {
    "'" + EscapeQuotes(s) + "'"
  }

  lemma PrependTwice(a: string, b: string, r: Option<Read>)
    ensures Prepend(a, Prepend(b, r)) == Prepend(a + b, r) && Prepend("", r) == r
  {
    if r.Some? {
      assert a + (b + r.value.word) == a + b + r.value.word;
      assert "" + r.value.word == r.value.word;
    }
  }

  lemma QuoteOpens(rest: string)
    ensures ReadWord("'" + rest, Bare) == ReadWord(rest, Single)
  {
    assert ("'" + rest)[1..] == rest;
  }

  lemma QuoteCloses(rest: string)
    ensures ReadWord("'" + rest, Single) == ReadWord(rest, Bare)
  {
    assert ("'" + rest)[1..] == rest;
  }

  lemma QuotedCharacter(c: char, rest: string)
    requires c != '\''
    ensures ReadWord([c] + rest, Single) == Prepend([c], ReadWord(rest, Single))
  {
    assert ([c] + rest)[1..] == rest;
  }

  lemma EscapedQuote(rest: string)
    ensures ReadWord("\\'" + rest, Bare) == Prepend("'", ReadWord(rest, Bare))
  {
    var text := "\\'" + rest;
    assert text[1..] == "'" + rest && text[1..][1..] == rest;
  }

  lemma QuoteReopens(rest: string)
    ensures ReadWord("'\\''" + rest, Single) == Prepend("'", ReadWord(rest, Single))
  {
    hide ReadWord, Prepend;
    assert "'\\''" + rest == "'" + ("\\'" + ("'" + rest));
    QuoteCloses("\\'" + ("'" + rest));
    EscapedQuote("'" + rest);
    QuoteOpens(rest);
  }

  lemma {:induction false} EscapedReadsBack(s: string, rest: string)
    ensures ReadWord(EscapeQuotes(s) + ("'" + rest), Single) == Prepend(s, ReadWord(rest, Bare))
  {
    hide ReadWord, Prepend;
    if s == "" {
      assert EscapeQuotes(s) + ("'" + rest) == "'" + rest;
      QuoteCloses(rest);
      PrependTwice("", "", ReadWord(rest, Bare));
    } else {
      EscapedReadsBack(s[1..], rest);
      var inner := EscapeQuotes(s[1..]) + ("'" + rest);
      if s[0] == '\'' {
        QuoteReopens(inner);
        assert EscapeQuotes(s) + ("'" + rest) == "'\\''" + inner;
      } else {
        QuotedCharacter(s[0], inner);
        assert EscapeQuotes(s) + ("'" + rest) == [s[0]] + inner;
      }
      PrependTwice([s[0]], s[1..], ReadWord(rest, Bare));
      assert [s[0]] + s[1..] == s;
    }
  }

  /** The reader takes a quoted text as it was, and goes on with what follows it. */
  lemma QuotedReadsBack(s: string, rest: string)
    ensures ReadWord(SingleQuote(s) + rest, Bare) == Prepend(s, ReadWord(rest, Bare))
  {
    hide ReadWord, Prepend;
    EscapedReadsBack(s, rest);
    QuoteOpens(EscapeQuotes(s) + ("'" + rest));
    assert SingleQuote(s) + rest == "'" + (EscapeQuotes(s) + ("'" + rest));
  }

  /** Standing alone or before a delimiter, the quoted text is one whole word. */
  lemma QuotedIsOneWord(s: string, rest: string)
    requires rest == "" || IsBlank(rest[0]) || IsOperator(rest[0])
    ensures ReadWord(SingleQuote(s) + rest, Bare) == Some(Read(s, rest))
  {
    QuotedReadsBack(s, rest);
    assert s + "" == s;
  }

  // ---- Literals in command lines ----

  /** Characters that mean themselves outside quotes. */
  predicate IsPlain(s: string) {
    forall i :: 0 <= i < |s| ==>
      !IsBlank(s[i]) && !IsOperator(s[i]) && !IsExpansion(s[i]) && s[i] !in ['\'', '"', '\\']
  }

  predicate EndsWord(rest: string) {
    rest == "" || IsBlank(rest[0]) || IsOperator(rest[0])
  }

  lemma {:induction false} PlainWord(s: string, rest: string)
    requires IsPlain(s) && EndsWord(rest)
    ensures ReadWord(s + rest, Bare) == Some(Read(s, rest))
  {
    if s == "" {
      assert s + rest == rest;
    } else {
      PlainWord(s[1..], rest);
      assert (s + rest)[1..] == s[1..] + rest;
      assert [s[0]] + s[1..] == s;
    }
  }

  function PrependWord(w: string, r: Option<Command>): Option<Command> {
    if r.Some? then Some(Command([w] + r.value.words, r.value.rest)) else None
  }

  lemma WordThenMore(w: string, text: string, rest: string)
    requires text != "" && !IsBlank(text[0]) && !IsOperator(text[0])
    requires ReadWord(text, Bare) == Some(Read(w, rest))
    ensures ReadCommand(text) == PrependWord(w, ReadCommand(rest))
  {
    hide ReadWord;
    assert SkipBlanks(text) == text;
  }

  lemma BlankSkipped(text: string)
    ensures ReadCommand(" " + text) == ReadCommand(text)
  {
    hide ReadWord;
    assert (" " + text)[1..] == text;
  }

  lemma PlainThenMore(w: string, text: string)
    requires w != "" && IsPlain(w)
    ensures ReadCommand(w + " " + text) == PrependWord(w, ReadCommand(text))
  {
    hide ReadWord, ReadCommand;
    PlainWord(w, " " + text);
    assert w + " " + text == w + (" " + text);
    assert !IsBlank(w[0]) && !IsOperator(w[0]);
    WordThenMore(w, w + " " + text, " " + text);
    BlankSkipped(text);
  }

  lemma QuotedThenMore(s: string, rest: string)
    requires EndsWord(rest)
    ensures ReadCommand(SingleQuote(s) + rest) == PrependWord(s, ReadCommand(rest))
  {
    hide ReadWord, ReadCommand, EscapeQuotes;
    QuotedIsOneWord(s, rest);
    WordThenMore(s, SingleQuote(s) + rest, rest);
  }

  lemma PipeEndsCommand(tail: string)
    ensures ReadCommand(" | " + tail) == Some(Command([], "| " + tail))
  {
    hide ReadWord;
    assert " | " + tail == " " + ("| " + tail);
    BlankSkipped("| " + tail);
  }

  lemma PlainPrintf()
    ensures IsPlain("printf") && IsPlain("%s")
  {
  }

  /** `printf %s <literal> | …`, as the operator scripts pipe their manifests. */
  function PrintfPipe(literal: string, tail: string): string {
    "printf" + " " + ("%s" + " " + (literal + (" | " + tail)))
  }

  /** A quoted text reaches printf as one argument, whatever it contains. */
  lemma QuotedArgument(s: string, tail: string)
    ensures ReadCommand(PrintfPipe(SingleQuote(s), tail)) == Some(Command(["printf", "%s", s], "| " + tail))
  {
    hide ReadWord, ReadCommand, IsPlain, SingleQuote;
    PipeEndsCommand(tail);
    QuotedThenMore(s, " | " + tail);
    PlainPrintf();
    PlainThenMore("%s", SingleQuote(s) + (" | " + tail));
    PlainThenMore("printf", "%s" + " " + (SingleQuote(s) + (" | " + tail)));
    assert ["printf"] + (["%s"] + ([s] + [])) == ["printf", "%s", s];
  }

  // ---- Secrets and LDIF text in remote commands ----

  /** What the shell keeps of a command's output: all but the newlines at its end. */
  function StripNewlines(bytes: seq<Byte>): seq<Byte> {
    if bytes != [] && bytes[|bytes| - 1] == 10 then StripNewlines(bytes[..|bytes| - 1]) else bytes
  }

  datatype Assigned = Assigned(value: seq<Byte>, rest: string)

  /** `NAME=$(printf %s WORD | base64 -d)`: what the variable holds, and the script behind it. */
  function ReadAssignment(name: string, script: string): Option<Assigned> {
    var opening := name + "=$(";
    if !(opening <= script) then None
    else
      var c := ReadCommand(script[|opening|..]);
      if c.None? || |c.value.words| != 3 || c.value.words[..2] != ["printf", "%s"]
            || !(BASE64_PIPE <= c.value.rest) then None
      else
        var bytes := Decode(c.value.words[2]);
        if bytes.None? then None
        else Some(Assigned(StripNewlines(bytes.value), c.value.rest[|BASE64_PIPE|..]))
  }

  const BASE64_PIPE := "| base64 -d)"
  const ADMIN_DN := "cn=admin,dc=azcluster,dc=local"

  function Assignment(name: string, text: string): string {
    name + "=$(printf %s '" + text + "' | base64 -d)"
  }

  function LdapTool(tool: string, extra: string): string {
    "; printf %s \"$LDIF\" | " + tool + " -x -D '" + ADMIN_DN + "' -w \"$PW\" -H ldap://127.0.0.1 " + extra
  }

  function BuildLdapWriteCmd(password: seq<Byte>, ldif: seq<Byte>, tool: string, extra: string): string {
    "set -e; " + Assignment("PW", Encode(password)) + "; " + Assignment("LDIF", Encode(ldif)) + LdapTool(tool, extra)
  }

  lemma {:induction false} NothingToEscape(s: string)
    requires forall i :: 0 <= i < |s| ==> s[i] != '\''
    ensures EscapeQuotes(s) == s
  {
    if s != "" {
      NothingToEscape(s[1..]);
    }
  }

  lemma EncodedQuotes(data: seq<Byte>)
    ensures SingleQuote(Encode(data)) == "'" + Encode(data) + "'"
  {
    hide Encode, SextetOf;
    Shape(data);
    PadIsNoSymbol();
    NothingToEscape(Encode(data));
  }

  lemma AssignmentReads(name: string, data: seq<Byte>, rest: string)
    ensures ReadAssignment(name, Assignment(name, Encode(data)) + rest) == Some(Assigned(StripNewlines(data), rest))
  {
    hide ReadCommand, Encode, Decode, SingleQuote, StripNewlines;
    EncodedQuotes(data);
    DecodeEncode(data);
    QuotedArgument(Encode(data), "base64 -d)" + rest);
    var script := Assignment(name, Encode(data)) + rest;
    var opening := name + "=$(";
    assert script[..|opening|] == opening;
    assert script[|opening|..] == PrintfPipe(SingleQuote(Encode(data)), "base64 -d)" + rest);
    assert "| " + ("base64 -d)" + rest) == BASE64_PIPE + rest;
    assert (BASE64_PIPE + rest)[|BASE64_PIPE|..] == rest;
  }

  /**
   The remote shell gets password and LDIF text back, less final newlines, and runs the same tool line for
   all of them.
   */
  lemma WriteCmdDelivers(password: seq<Byte>, ldif: seq<Byte>, tool: string, extra: string)
    ensures var cmd := BuildLdapWriteCmd(password, ldif, tool, extra);
            && "set -e; " <= cmd
            && var pw := ReadAssignment("PW", cmd[8..]);
               && pw.Some? && pw.value.value == StripNewlines(password) && "; " <= pw.value.rest
               && ReadAssignment("LDIF", pw.value.rest[2..]) ==
                     Some(Assigned(StripNewlines(ldif), LdapTool(tool, extra)))
  {
    hide ReadAssignment, Assignment, StripNewlines, LdapTool, Encode;
    var cmd := BuildLdapWriteCmd(password, ldif, tool, extra);
    var second := Assignment("LDIF", Encode(ldif)) + LdapTool(tool, extra);
    assert cmd[..8] == "set -e; ";
    assert cmd[8..] == Assignment("PW", Encode(password)) + ("; " + second);
    AssignmentReads("PW", password, "; " + second);
    assert ("; " + second)[2..] == second;
    AssignmentReads("LDIF", ldif, LdapTool(tool, extra));
  }

  /** A value survives exactly when it does not end in a newline. */
  lemma {:induction false} SurvivesExactly(bytes: seq<Byte>)
    ensures StripNewlines(bytes) == bytes <==> (bytes == [] || bytes[|bytes| - 1] != 10)
    ensures StripNewlines(bytes) <= bytes
    ensures forall i :: |StripNewlines(bytes)| <= i < |bytes| ==> bytes[i] == 10
  {
    if bytes != [] && bytes[|bytes| - 1] == 10 {
      SurvivesExactly(bytes[..|bytes| - 1]);
    }
  }
}
