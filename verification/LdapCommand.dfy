/** The LDAP write command as the remote shell runs it, its variables expanded. */
module LdapCommand {
  import opened Base64
  import opened Shell
  import opened Strings
  import opened Wrappers

  /** An argument: text of the script, or what a variable in double quotes holds. */
  datatype Arg = Given(text: string) | Held(bytes: seq<Byte>)

  type Variables = map<string, seq<Byte>>

  datatype ReadArg = ReadArg(arg: Arg, rest: string)

  function Argument(vars: Variables, s: string): (r: Option<ReadArg>)
    ensures r.Some? ==> |r.value.rest| <= |s|
  {
    if "\"$" <= s then
      var i := Find(s[2..], '"');
      if i == |s| - 2 || s[2..i + 2] !in vars || !EndsWord(s[i + 3..]) then None
      else Some(ReadArg(Held(vars[s[2..i + 2]]), s[i + 3..]))
    else
      var word := ReadWord(s, Bare);
      if word.Some? then Some(ReadArg(Given(word.value.word), word.value.rest)) else None
  }

  datatype Arguments = Arguments(args: seq<Arg>, rest: string)

  /** The arguments of a simple command up to the next operator. */
  function ReadArguments(vars: Variables, s: string): Option<Arguments>
    decreases |s|
  {
    var t := SkipBlanks(s);
    if t == "" || IsOperator(t[0]) then Some(Arguments([], t))
    else
      var first := Argument(vars, t);
      if first.None? || |first.value.rest| >= |t| then None
      else
        var others := ReadArguments(vars, first.value.rest);
        if others.None? then None
        else Some(Arguments([first.value.arg] + others.value.args, others.value.rest))
  }

  /** Two commands, the output of the first being the input of the second. */
  datatype Pipeline = Pipeline(writer: seq<Arg>, reader: seq<Arg>)

  function ReadPipeline(vars: Variables, s: string): Option<Pipeline> {
    var writer := ReadArguments(vars, s);
    if writer.None? || !("| " <= writer.value.rest) then None
    else
      var reader := ReadArguments(vars, writer.value.rest[2..]);
      if reader.None? || reader.value.rest != "" then None
      else Some(Pipeline(writer.value.args, reader.value.args))
  }

  /** Stop on errors, assign both variables, then the pipeline. */
  function ReadScript(cmd: string): Option<Pipeline> {
    if !("set -e; " <= cmd) then None
    else
      var pw := ReadAssignment("PW", cmd[8..]);
      if pw.None? || !("; " <= pw.value.rest) then None
      else
        var ldif := ReadAssignment("LDIF", pw.value.rest[2..]);
        if ldif.None? || !("; " <= ldif.value.rest) then None
        else ReadPipeline(map["PW" := pw.value.value, "LDIF" := ldif.value.value], ldif.value.rest[2..])
  }

  // ---- Reading one argument more ----

  function Before(arg: Arg, r: Option<Arguments>): Option<Arguments> {
    if r.Some? then Some(Arguments([arg] + r.value.args, r.value.rest)) else None
  }

  lemma ArgumentThenMore(vars: Variables, arg: Arg, text: string, rest: string)
    requires text != "" && !IsBlank(text[0]) && !IsOperator(text[0]) && |rest| < |text|
    requires Argument(vars, text) == Some(ReadArg(arg, rest))
    ensures ReadArguments(vars, text) == Before(arg, ReadArguments(vars, rest))
  {
    hide Argument;
    assert SkipBlanks(text) == text;
  }

  lemma SkipsBlank(vars: Variables, text: string)
    ensures ReadArguments(vars, " " + text) == ReadArguments(vars, text)
  {
    hide Argument;
    assert (" " + text)[1..] == text;
  }

  lemma PlainArgument(vars: Variables, w: string, text: string)
    requires w != "" && IsPlain(w)
    ensures ReadArguments(vars, w + (" " + text)) == Before(Given(w), ReadArguments(vars, text))
  {
    hide ReadWord, ReadArguments;
    PlainWord(w, " " + text);
    var all := w + (" " + text);
    assert all[0] == w[0] && !IsBlank(w[0]) && !IsOperator(w[0]) && w[0] != '"';
    ArgumentThenMore(vars, Given(w), all, " " + text);
    SkipsBlank(vars, text);
  }

  lemma LastArgument(vars: Variables, w: string)
    requires IsPlain(w)
    ensures ReadArguments(vars, w) == Some(Arguments(if w == "" then [] else [Given(w)], ""))
  {
    hide ReadWord, ReadArguments;
    NoArguments(vars, "");
    if w != "" {
      PlainWord(w, "");
      assert w + "" == w;
      assert !IsBlank(w[0]) && !IsOperator(w[0]) && w[0] != '"';
      ArgumentThenMore(vars, Given(w), w, "");
      assert [Given(w)] + [] == [Given(w)];
    }
  }

  lemma NoArguments(vars: Variables, rest: string)
    requires rest == "" || IsOperator(rest[0])
    ensures ReadArguments(vars, rest) == Some(Arguments([], rest))
  {
    hide Argument;
  }

  lemma QuotedArgumentThenMore(vars: Variables, w: string, text: string)
    requires forall i :: 0 <= i < |w| ==> w[i] != '\''
    ensures ReadArguments(vars, "'" + w + "'" + (" " + text)) == Before(Given(w), ReadArguments(vars, text))
  {
    hide ReadWord, ReadArguments, EscapeQuotes;
    NothingToEscape(w);
    QuotedIsOneWord(w, " " + text);
    var all := "'" + w + "'" + (" " + text);
    assert all[0] == '\'';
    ArgumentThenMore(vars, Given(w), all, " " + text);
    SkipsBlank(vars, text);
  }

  lemma VariableThenMore(vars: Variables, name: string, quoted: string, text: string)
    requires name in vars && forall i :: 0 <= i < |name| ==> name[i] != '"'
    requires quoted == "\"$" + name + "\""
    ensures ReadArguments(vars, quoted + (" " + text)) == Before(Held(vars[name]), ReadArguments(vars, text))
  {
    hide ReadArguments, Find;
    var all := quoted + (" " + text);
    var behind := name + "\"" + (" " + text);
    assert all[..2] == "\"$" && all[2..] == behind;
    assert behind[|name|] == '"' && forall j :: 0 <= j < |name| ==> behind[j] == name[j];
    assert Find(behind, '"') == |name|;
    assert all[2..|name| + 2] == name && all[|name| + 3..] == " " + text;
    ArgumentThenMore(vars, Held(vars[name]), all, " " + text);
    SkipsBlank(vars, text);
  }

  // ---- The command ----

  lemma Regroup(a: string, b: string, c: string)
    ensures a + b + c == a + (b + c)
  {
  }

  lemma WriterText()
    ensures "; printf %s \"$LDIF\" | " == "; " + ("printf" + (" " + ("%s" + (" " + ("\"$LDIF\"" + (" " + "| "))))))
  {
  }

  lemma BindText()
    ensures " -x -D '" == " " + ("-x" + (" " + ("-D" + (" " + "'"))))
  {
  }

  lemma PasswordText()
    ensures "' -w \"$PW\" -H ldap://127.0.0.1 " ==
            "'" + (" " + ("-w" + (" " + ("\"$PW\"" + (" " + ("-H" + (" " + ("ldap://127.0.0.1" + " "))))))))
  {
  }

  lemma PasswordThen(extra: string)
    ensures "' -w \"$PW\" -H ldap://127.0.0.1 " + extra ==
            "'" + (" " + ("-w" + (" " + ("\"$PW\"" + (" " + ("-H" + (" " + ("ldap://127.0.0.1" + (" " + extra)))))))))
  {
    PasswordText();
    var host := "ldap://127.0.0.1" + " ";
    var address := "-H" + (" " + host);
    var password := "\"$PW\"" + (" " + address);
    var flag := "-w" + (" " + password);
    Regroup("ldap://127.0.0.1", " ", extra);
    Regroup(" ", host, extra);
    Regroup("-H", " " + host, extra);
    Regroup(" ", address, extra);
    Regroup("\"$PW\"", " " + address, extra);
    Regroup(" ", password, extra);
    Regroup("-w", " " + password, extra);
    Regroup(" ", flag, extra);
    Regroup("'", " " + flag, extra);
  }

  lemma BindThen(text: string)
    ensures " -x -D '" + text == " " + ("-x" + (" " + ("-D" + (" " + ("'" + text)))))
  {
    BindText();
    var quote := " " + "'";
    var dn := "-D" + quote;
    Regroup(" ", "'", text);
    Regroup("-D", quote, text);
    Regroup(" ", dn, text);
    Regroup("-x", " " + dn, text);
    Regroup(" ", "-x" + (" " + dn), text);
  }

  lemma WriterThen(text: string)
    ensures "; printf %s \"$LDIF\" | " + text ==
            "; " + ("printf" + (" " + ("%s" + (" " + ("\"$LDIF\"" + (" " + ("| " + text)))))))
  {
    WriterText();
    var pipe := " " + "| ";
    var ldif := "\"$LDIF\"" + pipe;
    var format := "%s" + (" " + ldif);
    Regroup(" ", "| ", text);
    Regroup("\"$LDIF\"", pipe, text);
    Regroup(" ", ldif, text);
    Regroup("%s", " " + ldif, text);
    Regroup(" ", format, text);
    Regroup("printf", " " + format, text);
    Regroup("; ", "printf" + (" " + format), text);
  }

  /** The credentials the tool is started with. */
  function Credentials(pw: seq<Byte>, extra: string): seq<Arg> {
    [Given("-w")] + ([Held(pw)] + ([Given("-H")] + ([Given("ldap://127.0.0.1")]
    + if extra == "" then [] else [Given(extra)])))
  }

  lemma CredentialsRead(vars: Variables, extra: string)
    requires "PW" in vars && IsPlain(extra)
    ensures ReadArguments(vars,
                          "-w" + (" " + ("\"$PW\"" + (" " + ("-H" + (" " + ("ldap://127.0.0.1" + (" " + extra))))))))
         == Some(Arguments(Credentials(vars["PW"], extra), ""))
  {
    hide ReadArguments, IsPlain;
    PlainTexts();
    LastArgument(vars, extra);
    PlainArgument(vars, "ldap://127.0.0.1", extra);
    PlainArgument(vars, "-H", "ldap://127.0.0.1" + (" " + extra));
    PwQuoted();
    VariableThenMore(vars, "PW", "\"$PW\"", "-H" + (" " + ("ldap://127.0.0.1" + (" " + extra))));
    PlainArgument(vars, "-w", "\"$PW\"" + (" " + ("-H" + (" " + ("ldap://127.0.0.1" + (" " + extra))))));
  }

  lemma PlainTexts()
    ensures IsPlain("ldap://127.0.0.1") && IsPlain("-H") && IsPlain("-w") && IsPlain("-x") && IsPlain("-D")
  {
  }

  lemma PwQuoted()
    ensures "\"$PW\"" == "\"$" + "PW" + "\"" && forall i :: 0 <= i < 2 ==> "PW"[i] != '"'
  {
  }

  lemma LdifQuoted()
    ensures "\"$LDIF\"" == "\"$" + "LDIF" + "\"" && forall i :: 0 <= i < 4 ==> "LDIF"[i] != '"'
  {
  }

  const DN := "cn=admin,dc=azcluster,dc=local"

  function ToolArguments(tool: string, pw: seq<Byte>, extra: string): seq<Arg> {
    [Given(tool)] + ([Given("-x")] + ([Given("-D")] + ([Given(DN)] + Credentials(pw, extra))))
  }

  lemma ToolReads(vars: Variables, tool: string, extra: string)
    requires "PW" in vars && tool != "" && IsPlain(tool) && IsPlain(extra)
    ensures ReadArguments(vars, tool + (" -x -D '" + (ADMIN_DN + ("' -w \"$PW\" -H ldap://127.0.0.1 " + extra))))
         == Some(Arguments(ToolArguments(tool, vars["PW"], extra), ""))
  {
    hide ReadArguments, IsPlain, Credentials;
    PlainTexts();
    AdminName();
    var login := "-w" + (" " + ("\"$PW\"" + (" " + ("-H" + (" " + ("ldap://127.0.0.1" + (" " + extra)))))));
    CredentialsRead(vars, extra);
    PasswordThen(extra);
    BindThen(ADMIN_DN + ("'" + (" " + login)));
    Regroup("'", ADMIN_DN, "'" + (" " + login));
    Regroup("'" + ADMIN_DN, "'", " " + login);
    QuotedArgumentThenMore(vars, ADMIN_DN, login);
    var name := "'" + ADMIN_DN + "'" + (" " + login);
    PlainArgument(vars, "-D", name);
    PlainArgument(vars, "-x", "-D" + (" " + name));
    PlainArgument(vars, tool, "-x" + (" " + ("-D" + (" " + name))));
  }

  lemma AdminName()
    ensures ADMIN_DN == DN && forall i :: 0 <= i < |ADMIN_DN| ==> ADMIN_DN[i] != '\''
  {
  }

  lemma WriterReads(vars: Variables, text: string)
    requires "LDIF" in vars
    ensures ReadArguments(vars, "printf" + (" " + ("%s" + (" " + ("\"$LDIF\"" + (" " + ("| " + text)))))))
         == Some(Arguments([Given("printf"), Given("%s"), Held(vars["LDIF"])], "| " + text))
  {
    hide ReadArguments, IsPlain;
    PlainPrintf();
    LdifQuoted();
    NoArguments(vars, "| " + text);
    VariableThenMore(vars, "LDIF", "\"$LDIF\"", "| " + text);
    PlainArgument(vars, "%s", "\"$LDIF\"" + (" " + ("| " + text)));
    PlainArgument(vars, "printf", "%s" + (" " + ("\"$LDIF\"" + (" " + ("| " + text)))));
    assert [Given("printf")] + ([Given("%s")] + ([Held(vars["LDIF"])] + []))
        == [Given("printf"), Given("%s"), Held(vars["LDIF"])];
  }

  lemma ToolLine(tool: string, extra: string)
    ensures LdapTool(tool, extra) == "; printf %s \"$LDIF\" | "
              + (tool + (" -x -D '" + (ADMIN_DN + ("' -w \"$PW\" -H ldap://127.0.0.1 " + extra))))
  {
    var opening, bind, password := "; printf %s \"$LDIF\" | ", " -x -D '", "' -w \"$PW\" -H ldap://127.0.0.1 ";
    Regroup(opening + tool + bind + ADMIN_DN, password, extra);
    Regroup(opening + tool + bind, ADMIN_DN, password + extra);
    Regroup(opening + tool, bind, ADMIN_DN + (password + extra));
    Regroup(opening, tool, bind + (ADMIN_DN + (password + extra)));
  }

  lemma LineReads(vars: Variables, tool: string, extra: string)
    requires "PW" in vars && "LDIF" in vars && tool != "" && IsPlain(tool) && IsPlain(extra)
    ensures var line := LdapTool(tool, extra);
            && "; " <= line
            && ReadPipeline(vars, line[2..]) == Some(Pipeline([Given("printf"), Given("%s"), Held(vars["LDIF"])],
                                                              ToolArguments(tool, vars["PW"], extra)))
  {
    hide ReadArguments, IsPlain, LdapTool, ToolArguments;
    var command := tool + (" -x -D '" + (ADMIN_DN + ("' -w \"$PW\" -H ldap://127.0.0.1 " + extra)));
    ToolLine(tool, extra);
    WriterThen(command);
    WriterReads(vars, command);
    ToolReads(vars, tool, extra);
    assert ("| " + command)[2..] == command;
  }

  /**
   Run by a shell, the command pipes the LDIF text into the tool, which binds as the administrator with
   the password; of both texts only newlines at the end are lost.
   */
  lemma CommandRuns(password: seq<Byte>, ldif: seq<Byte>, tool: string, extra: string)
    requires tool != "" && IsPlain(tool) && IsPlain(extra)
    ensures ReadScript(BuildLdapWriteCmd(password, ldif, tool, extra)) ==
            Some(Pipeline([Given("printf"), Given("%s"), Held(StripNewlines(ldif))],
                          ToolArguments(tool, StripNewlines(password), extra)))
  {
    hide ReadAssignment, LdapTool, BuildLdapWriteCmd, ToolArguments, ReadPipeline, StripNewlines, IsPlain;
    WriteCmdDelivers(password, ldif, tool, extra);
    LineReads(map["PW" := StripNewlines(password), "LDIF" := StripNewlines(ldif)], tool, extra);
  }
}
