/**
 * container/durable_startup.go, the renderer: a command with its environment, working directory
 * and login user becomes POSIX shell text.  The main result, `CompilationIsExact`, says for which
 * executables running that text does exactly what was asked for.
 */
module DurableScript {
  import opened GoStrings
  import opened Patterns
  import opened Results
  import opened Shell

  // ---------- The executable ----------

  /** exec.ProcessOption: a nil entry, one of the three translated options, or any other one. */
  datatype ProcessOption =
    | NilOption
    | WithUser(user: string)
    | WithWorkingDir(dir: string)
    | WithEnv(env: seq<string>)
    | OtherOption

  /** The fields of exec.ProcessOptions.ExecConfig that the renderer reads. */
  datatype ExecConfig = ExecConfig(user: string, workingDir: string, env: seq<string>)

  const ZERO_CONFIG := ExecConfig("", "", [])

  datatype Executable = NilExecutable | Executable(command: seq<string>, options: seq<ProcessOption>)

  datatype RenderError = NilExecutableError | EmptyCommand | UnsupportedUser(user: string)

  function Apply(opt: ProcessOption, po: ExecConfig): ExecConfig
  {
    match opt
    case WithUser(u) => po.(user := u)
    case WithWorkingDir(d) => po.(workingDir := d)
    case WithEnv(env) => po.(env := env)
    case _ => po
  }

  function ApplyAll(opts: seq<ProcessOption>, po: ExecConfig): ExecConfig
  {
    if opts == [] then po else ApplyAll(opts[1..], Apply(opts[0], po))
  }

  function Config(e: Executable): ExecConfig
    requires e.Executable?
  {
    ApplyAll(e.options, ZERO_CONFIG)
  }

  /** No option sets the user, the working directory, or the environment. */
  predicate NoUser(opts: seq<ProcessOption>)
  {
    forall i :: 0 <= i < |opts| ==> !opts[i].WithUser?
  }

  predicate NoWorkingDir(opts: seq<ProcessOption>)
  {
    forall i :: 0 <= i < |opts| ==> !opts[i].WithWorkingDir?
  }

  predicate NoEnv(opts: seq<ProcessOption>)
  {
    forall i :: 0 <= i < |opts| ==> !opts[i].WithEnv?
  }

  lemma {:induction false} UntouchedFields(opts: seq<ProcessOption>, po: ExecConfig)
    ensures NoUser(opts) ==> ApplyAll(opts, po).user == po.user
    ensures NoWorkingDir(opts) ==> ApplyAll(opts, po).workingDir == po.workingDir
    ensures NoEnv(opts) ==> ApplyAll(opts, po).env == po.env
    decreases |opts|
  {
    if opts != [] {
      UntouchedFields(opts[1..], Apply(opts[0], po));
    }
  }

  lemma {:induction false} LastSetsField(opts: seq<ProcessOption>, po: ExecConfig, i: nat)
    requires i < |opts|
    ensures opts[i].WithUser? && NoUser(opts[i + 1..]) ==> ApplyAll(opts, po).user == opts[i].user
    ensures opts[i].WithWorkingDir? && NoWorkingDir(opts[i + 1..]) ==> ApplyAll(opts, po).workingDir == opts[i].dir
    ensures opts[i].WithEnv? && NoEnv(opts[i + 1..]) ==> ApplyAll(opts, po).env == opts[i].env
    decreases |opts|
  {
    if i > 0 {
      assert opts[1..][i - 1] == opts[i] && opts[1..][i..] == opts[i + 1..];
      LastSetsField(opts[1..], Apply(opts[0], po), i - 1);
    } else {
      UntouchedFields(opts[1..], Apply(opts[0], po));
    }
  }

  /**
   * For every list of options: the user is that of the last WithUser, the working directory that of
   * the last WithWorkingDir and the environment that of the last WithEnv alone, whatever else is in
   * the list; each is empty if there is none.
   */
  lemma LastOptionCounts(e: Executable)
    requires e.Executable?
    ensures NoUser(e.options) ==> Config(e).user == ""
    ensures NoWorkingDir(e.options) ==> Config(e).workingDir == ""
    ensures NoEnv(e.options) ==> Config(e).env == []
    ensures forall i :: 0 <= i < |e.options| ==>
      && (e.options[i].WithUser? && NoUser(e.options[i + 1..]) ==> Config(e).user == e.options[i].user)
      && (e.options[i].WithWorkingDir? && NoWorkingDir(e.options[i + 1..]) ==> Config(e).workingDir == e.options[i].dir)
      && (e.options[i].WithEnv? && NoEnv(e.options[i + 1..]) ==> Config(e).env == e.options[i].env)
  {
    UntouchedFields(e.options, ZERO_CONFIG);
    forall i | 0 <= i < |e.options|
      ensures e.options[i].WithUser? && NoUser(e.options[i + 1..]) ==> Config(e).user == e.options[i].user
      ensures e.options[i].WithWorkingDir? && NoWorkingDir(e.options[i + 1..]) ==> Config(e).workingDir == e.options[i].dir
      ensures e.options[i].WithEnv? && NoEnv(e.options[i + 1..]) ==> Config(e).env == e.options[i].env
    {
      LastSetsField(e.options, ZERO_CONFIG, i);
    }
  }

  /** durableUserRe: `^[a-zA-Z_][a-zA-Z0-9_-]*$`. */
  predicate LoginName(u: string)
  {
    u != "" && NameStart(u[0]) && forall i :: 0 <= i < |u| ==> NameChar(u[i]) || u[i] == '-'
  }

  const LOGIN_NAME := Then(OneOf([('a', 'z'), ('A', 'Z'), ('_', '_')]),
                           Star(OneOf([('a', 'z'), ('A', 'Z'), ('0', '9'), ('_', '_'), ('-', '-')])))

  /** The users that are not refused are those that match the pattern. */
  lemma LoginNamesMatch(u: string)
    ensures LoginName(u) <==> FullMatch(LOGIN_NAME, u)
  {
    var first, rest := LOGIN_NAME.first.ranges, LOGIN_NAME.second.pattern.ranges;
    ClassThenStar(first, rest, u);
    forall c: char
      ensures InRanges(c, first) <==> NameStart(c)
      ensures InRanges(c, rest) <==> NameChar(c) || c == '-'
    {
      assert first[0] == ('a', 'z') && first[1] == ('A', 'Z') && first[2] == ('_', '_');
      assert rest[0] == ('a', 'z') && rest[1] == ('A', 'Z') && rest[2] == ('0', '9') && rest[3] == ('_', '_') && rest[4] == ('-', '-');
    }
  }

  // ---------- The rendered text ----------

  /** strings.ReplaceAll(s, "'", `'\''`). */
  function EscapeQuotes(s: string): string
  {
    if s == "" then ""
    else (if s[0] == '\'' then "'\\''" else [s[0]]) + EscapeQuotes(s[1..])
  }

  function ShellSingleQuote(s: string): string
  {
    if s == "" then "''" else "'" + EscapeQuotes(s) + "'"
  }

  /** An entry is kept when it has a `=` with something before it. */
  predicate Kept(entry: string)
  {
    IndexOf(entry, '=') > 0
  }

  function Key(entry: string): string
    requires Kept(entry)
  {
    entry[..IndexOf(entry, '=')]
  }

  function Value(entry: string): string
    requires Kept(entry)
  {
    entry[IndexOf(entry, '=') + 1..]
  }

  /** An entry is kept exactly if it is a key that is not empty, a `=` and a value; the first `=` ends the key. */
  lemma KeptExactly(entry: string)
    ensures Kept(entry) <==> exists key, value :: key != "" && '=' !in key && entry == key + ['='] + value
    ensures Kept(entry) ==> '=' !in Key(entry) && entry == Key(entry) + ['='] + Value(entry)
  {
    if key, value :| key != "" && '=' !in key && entry == key + ['='] + value {
      IndexOfJoined(key, '=', value);
    }
    if Kept(entry) {
      assert entry == Key(entry) + ['='] + Value(entry);
    }
  }

  function EnvLine(entry: string): string
  {
    if Kept(entry) then "export " + Key(entry) + "=" + ShellSingleQuote(Value(entry)) + "\n" else ""
  }

  function EnvText(env: seq<string>): string
  {
    if env == [] then "" else EnvLine(env[0]) + EnvText(env[1..])
  }

  function CdText(dir: string): string
  {
    if dir != "" then "cd " + ShellSingleQuote(dir) + "\n" else ""
  }

  function ArgsText(args: seq<string>): string
  {
    if args == [] then "" else " " + ShellSingleQuote(args[0]) + ArgsText(args[1..])
  }

  function BodyText(cmd: seq<string>, po: ExecConfig): string
  {
    EnvText(po.env) + CdText(po.workingDir) + "exec" + ArgsText(cmd) + "\n"
  }

  const SHEBANG := "#!/bin/sh\n"
  const SET_E := "set -e\n"
  const SU := "exec su -s /bin/sh -c "

  function SuText(inner: string, user: string): string
  {
    SU + ShellSingleQuote(inner) + " " + ShellSingleQuote(user) + "\n"
  }

  function ScriptText(cmd: seq<string>, po: ExecConfig): string
  {
    SHEBANG + SET_E +
    if po.user != "" then SuText(SET_E + BodyText(cmd, po), po.user) else BodyText(cmd, po)
  }

  /** Which executables render, and to what. */
  function Rendered(e: Executable): Result<string, RenderError>
  {
    if e.NilExecutable? then Err(NilExecutableError)
    else if e.command == [] then Err(EmptyCommand)
    else
      var po := Config(e);
      if po.user != "" && !LoginName(po.user) then Err(UnsupportedUser(po.user))
      else Ok(ScriptText(e.command, po))
  }

  /**
   * An executable is refused exactly if it is nil, or has no command, or the last WithUser is for
   * something that is not a login name; otherwise it renders.
   */
  lemma RefusedExactly(e: Executable)
    ensures Rendered(e) == Err(NilExecutableError) <==> e.NilExecutable?
    ensures Rendered(e) == Err(EmptyCommand) <==> e.Executable? && e.command == []
    ensures e.Executable? && e.command != [] && NoUser(e.options) ==> Rendered(e).Ok?
    ensures forall i :: e.Executable? && e.command != [] && 0 <= i < |e.options| && e.options[i].WithUser? && NoUser(e.options[i + 1..]) ==>
      var u := e.options[i].user;
      if u == "" || FullMatch(LOGIN_NAME, u) then Rendered(e).Ok? else Rendered(e) == Err(UnsupportedUser(u))
  {
    if e.Executable? && e.command != [] {
      LastOptionCounts(e);
      LoginNamesMatch(Config(e).user);
    }
  }

  /** renderDurableScript: options are applied in order, then the text is built piece by piece. */
  method RenderDurableScript(e: Executable) returns (r: Result<string, RenderError>)
    ensures r == Rendered(e)
  {
    if e.NilExecutable? {
      return Err(NilExecutableError);
    }
    var cmd := e.command;
    if |cmd| == 0 {
      return Err(EmptyCommand);
    }

    var po := ZERO_CONFIG;
    for i := 0 to |e.options|
      invariant ApplyAll(e.options[i..], po) == Config(e)
    {
      var opt := e.options[i];
      if opt != NilOption {
        po := Apply(opt, po);
      }
      assert e.options[i..][1..] == e.options[i + 1..];
    }

    if po.user != "" && !LoginName(po.user) {
      return Err(UnsupportedUser(po.user));
    }

    var body := RenderBody(cmd, po);

    var b := SHEBANG;
    b := b + SET_E;
    if po.user != "" {
      var inner := SET_E + body;
      b := b + (SU + ShellSingleQuote(inner) + " " + ShellSingleQuote(po.user) + "\n");
    } else {
      b := b + body;
    }
    return Ok(b);
  }

  /** The part shared by the plain and the `su` form: env exports, cd, exec. */
  method RenderBody(cmd: seq<string>, po: ExecConfig) returns (body: string)
    ensures body == BodyText(cmd, po)
  {
    body := "";
    for i := 0 to |po.env|
      invariant body + EnvText(po.env[i..]) == EnvText(po.env)
    {
      var env := po.env[i];
      assert po.env[i..][1..] == po.env[i + 1..];
      Assoc(body, EnvLine(env), EnvText(po.env[i + 1..]));
      var eq := IndexOf(env, '=');
      if eq <= 0 {
        assert body + "" == body;
        continue;
      }
      body := body + ("export " + env[..eq] + "=" + ShellSingleQuote(env[eq + 1..]) + "\n");
    }
    assert body + "" == body;
    if po.workingDir != "" {
      body := body + ("cd " + ShellSingleQuote(po.workingDir) + "\n");
    } else {
      assert body + CdText("") == body;
    }
    body := body + "exec";
    body := WriteArgs(body, cmd);
    body := body + "\n";
  }

  /** The argument loop, on the text written so far. */
  method WriteArgs(head: string, cmd: seq<string>) returns (body: string)
    ensures body == head + ArgsText(cmd)
  {
    body := head;
    for i := 0 to |cmd|
      invariant body + ArgsText(cmd[i..]) == head + ArgsText(cmd)
    {
      var q := ShellSingleQuote(cmd[i]);
      assert cmd[i..][1..] == cmd[i + 1..];
      Assoc(body, " " + q, ArgsText(cmd[i + 1..]));
      Assoc(body, " ", q);
      body := body + " ";
      body := body + q;
    }
    assert body + "" == body;
  }

  lemma Assoc(a: string, b: string, c: string)
    ensures (a + b) + c == a + (b + c)
  {
  }

  // ---------- What the executable asks for ----------

  /** The kept entries as an environment; of two entries for one key the later one counts. */
  function EnvMap(env: seq<string>): Env
  {
    if env == [] then map[]
    else
      var later := EnvMap(env[1..]);
      if Kept(env[0]) && Key(env[0]) !in later then later[Key(env[0]) := Value(env[0])] else later
  }

  /**
   * Enter the directory if there is one, set the variables, start exactly `cmd`: entering sets PWD and
   * OLDPWD, but what is asked for is what the program is to get.
   */
  function Launch(cmd: seq<string>, po: ExecConfig, base: Env, cwd: string, user: string, w: World): Outcome
  {
    var asked := EnvMap(po.env);
    if po.workingDir == "" then Execed(cmd, base + asked, cwd, user)
    else
      match w.enter(user, base + asked, cwd, po.workingDir)
      case None => Failed
      case Some(to) => Execed(cmd, base["OLDPWD" := cwd]["PWD" := to] + asked, to, user)
  }

  /** The same, as the login user if one is asked for, in whatever environment `su` supplies. */
  function Intended(cmd: seq<string>, po: ExecConfig, base: Env, cwd: string, user: string, w: World): Outcome
  {
    if po.user == "" then Launch(cmd, po, base, cwd, user, w)
    else
      match w.su(user, base, po.user)
      case None => Failed
      case Some(env) => Launch(cmd, po, env, cwd, po.user, w)
  }

  /** What the rendered script does; with a login user, followed through the `su` it starts. */
  function Observed(cmd: seq<string>, po: ExecConfig, base: Env, cwd: string, user: string, w: World): Outcome
  {
    var o := RunScript(ScriptText(cmd, po), base, cwd, user, w);
    if po.user == "" then o else FollowSu(o, w)
  }

  predicate NulFree(cmd: seq<string>, po: ExecConfig)
  {
    && (forall a :: a in cmd ==> '\0' !in a)
    && (forall entry :: entry in po.env && Kept(entry) ==> '\0' !in entry)
    && '\0' !in po.workingDir
  }

  predicate KeysAreNames(po: ExecConfig)
  {
    forall entry :: entry in po.env && Kept(entry) ==> Name(Key(entry))
  }

  /** No kept entry is for a variable that `cd` sets. */
  predicate LeavesDirVars(po: ExecConfig)
  {
    forall entry :: entry in po.env && Kept(entry) ==> Key(entry) != "PWD" && Key(entry) != "OLDPWD"
  }

  /** The executables whose script does what they ask for, as a check a caller can make. */
  predicate Faithful(cmd: seq<string>, po: ExecConfig)
    requires cmd != []
  {
    && NulFree(cmd, po)
    && KeysAreNames(po)
    && (po.workingDir == "" || (po.workingDir[0] != '-' && LeavesDirVars(po)))
    && !OptionLike(cmd[0])
  }

  // ---------- Quoting ----------

  /** The renderer's escape for one quote inside a quoted word. */
  lemma LexEscapedQuote(tail: string, cur: string, words: Line)
    ensures Lex("'\\''" + tail, Quoted, cur, words) == Lex(tail, Quoted, cur + ['\''], words)
  {
    var t3 := ['\''] + tail;
    var t2 := ['\''] + t3;
    var t1 := ['\\'] + t2;
    assert "'\\''" + tail == ['\''] + t1;
    LexStep('\'', t1, Quoted, cur, words);
    LexStep('\\', t2, Word, cur, words);
    LexStep('\'', t3, Escaped(true), cur, words);
    LexStep('\'', tail, Word, cur + ['\''], words);
  }

  lemma {:induction false} LexQuotedBody(s: string, rest: string, cur: string, words: Line)
    requires '\0' !in s
    ensures Lex(EscapeQuotes(s) + ("'" + rest), Quoted, cur, words) == Lex(rest, Word, cur + s, words)
    decreases |s|
  {
    var end := "'" + rest;
    if s == "" {
      assert EscapeQuotes(s) + end == end;
      LexStep('\'', rest, Quoted, cur, words);
      assert cur + s == cur;
    } else {
      var c, escaped := s[0], EscapeQuotes(s[1..]);
      Assoc(cur, [c], s[1..]);
      assert s == [c] + s[1..];
      LexQuotedBody(s[1..], rest, cur + [c], words);
      Assoc(if c == '\'' then "'\\''" else [c], escaped, end);
      if c == '\'' {
        LexEscapedQuote(escaped + end, cur, words);
      } else {
        LexStep(c, escaped + end, Quoted, cur, words);
      }
    }
  }

  /** shellSingleQuote yields text that the shell reads as one word, equal to `s` byte for byte. */
  lemma LexQuote(s: string, rest: string, cur: string, words: Line)
    requires '\0' !in s
    ensures Lex(ShellSingleQuote(s) + rest, Word, cur, words) == Lex(rest, Word, cur + s, words)
    ensures Lex(ShellSingleQuote(s) + rest, Between, "", words) == Lex(rest, Word, s, words)
  {
    var tail := EscapeQuotes(s) + ("'" + rest);
    assert ShellSingleQuote(s) + rest == "'" + tail by {
      Assoc("'", EscapeQuotes(s), "'");
      Assoc("'", EscapeQuotes(s) + "'", rest);
      Assoc(EscapeQuotes(s), "'", rest);
    }
    LexStep('\'', tail, Word, cur, words);
    LexStep('\'', tail, Between, "", words);
    LexQuotedBody(s, rest, cur, words);
    LexQuotedBody(s, rest, "", words);
    assert "" + s == s;
  }

  /** One more quoted word ends the word before it. */
  lemma LexOneArg(arg: string, end: string, cur: string, words: Line)
    requires '\0' !in arg
    ensures Lex(" " + ShellSingleQuote(arg) + end, Word, cur, words) == Lex(end, Word, arg, words + [cur])
  {
    var q := ShellSingleQuote(arg);
    Assoc(" ", q, end);
    LexStep(' ', q + end, Word, cur, words);
    LexQuote(arg, end, "", words + [cur]);
  }

  /** Blanks and quoted words that follow a word, up to whatever ends the last of them. */
  lemma {:induction false} LexArgs(args: seq<string>, end: string, cur: string, words: Line, r: Option<seq<Line>>)
    requires forall a :: a in args ==> '\0' !in a
    requires forall w, ws :: ws + [w] == words + ([cur] + args) ==> Lex(end, Word, w, ws) == r
    ensures Lex(ArgsText(args) + end, Word, cur, words) == r
    decreases |args|
  {
    if args == [] {
      assert ArgsText(args) + end == end;
      assert words + [cur] == words + ([cur] + args);
    } else {
      var arg, rest := args[0], args[1..];
      Assoc(" " + ShellSingleQuote(arg), ArgsText(rest), end);
      LexOneArg(arg, ArgsText(rest) + end, cur, words);
      assert (words + [cur]) + ([arg] + rest) == words + ([cur] + args);
      LexArgs(rest, end, arg, words + [cur], r);
    }
  }

  /** Quoted words after a word complete the line, with or without a newline. */
  lemma LexArgsLine(args: seq<string>, cur: string, words: Line)
    requires forall a :: a in args ==> '\0' !in a
    ensures Lex(ArgsText(args), Word, cur, words) == Some([words + ([cur] + args)])
    ensures Lex(ArgsText(args) + "\n", Word, cur, words) == Some([words + ([cur] + args)])
  {
    var r := Some([words + ([cur] + args)]);
    forall w: string, ws: Line | ws + [w] == words + ([cur] + args)
      ensures Lex("", Word, w, ws) == r && Lex("\n", Word, w, ws) == r
    {
      assert "\n" == ['\n'] + "";
      LexStep('\n', "", Word, w, ws);
      assert Lex("", Between, "", []) == Some([]);
      assert [ws + [w]] + [] == [ws + [w]];
    }
    LexArgs(args, "", cur, words, r);
    LexArgs(args, "\n", cur, words, r);
    assert ArgsText(args) + "" == ArgsText(args);
  }

  /** Quoted words joined by blanks read back as exactly the list they were made from. */
  lemma QuotedWordsRoundTrip(args: seq<string>)
    requires args != [] && forall a :: a in args ==> '\0' !in a
    ensures Parse(ArgsText(args)[1..]) == Some([args])
  {
    var q, more := ShellSingleQuote(args[0]), ArgsText(args[1..]);
    Assoc(" ", q, more);
    assert (" " + (q + more))[1..] == q + more;
    LexQuote(args[0], more, "", []);
    LexArgsLine(args[1..], args[0], []);
    assert [] + ([args[0]] + args[1..]) == args;
  }

  // ---------- Reading the script back ----------

  lemma {:induction false} LexPlainTail(s: string, rest: string, cur: string, words: Line)
    requires forall c :: c in s ==> Plain(c)
    ensures Lex(s + rest, Word, cur, words) == Lex(rest, Word, cur + s, words)
    decreases |s|
  {
    if s == "" {
      assert s + rest == rest && cur + s == cur;
    } else {
      assert s == [s[0]] + s[1..];
      Assoc([s[0]], s[1..], rest);
      Assoc(cur, [s[0]], s[1..]);
      assert Plain(s[0]);
      LexStep(s[0], s[1..] + rest, Word, cur, words);
      LexPlainTail(s[1..], rest, cur + [s[0]], words);
    }
  }

  lemma LexPlainWord(s: string, rest: string, words: Line)
    requires PlainWord(s)
    ensures Lex(s + rest, Between, "", words) == Lex(rest, Word, s, words)
  {
    assert s == [s[0]] + s[1..];
    Assoc([s[0]], s[1..], rest);
    assert Plain(s[0]);
    LexStep(s[0], s[1..] + rest, Between, "", words);
    LexPlainTail(s[1..], rest, [s[0]], words);
  }

  /** Unquoted words, each followed by one blank. */
  function PlainText(ws: Line): string
  {
    if ws == [] then "" else ws[0] + " " + PlainText(ws[1..])
  }

  predicate PlainWord(s: string)
  {
    s != "" && forall c :: c in s ==> Plain(c)
  }

  predicate PlainWords(ws: Line)
  {
    forall s :: s in ws ==> PlainWord(s)
  }

  lemma {:induction false} LexPlainWords(ws: Line, rest: string, words: Line)
    requires PlainWords(ws)
    ensures Lex(PlainText(ws) + rest, Between, "", words) == Lex(rest, Between, "", words + ws)
    decreases |ws|
  {
    if ws == [] {
      assert PlainText(ws) + rest == rest && words + ws == words;
    } else {
      assert ws[0] in ws && PlainWord(ws[0]);
      var more := PlainText(ws[1..]) + rest;
      Assoc(ws[0] + " ", PlainText(ws[1..]), rest);
      Assoc(ws[0], " ", more);
      LexPlainWord(ws[0], " " + more, words);
      LexStep(' ', more, Word, ws[0], words);
      LexPlainWords(ws[1..], rest, words + [ws[0]]);
      assert words + [ws[0]] + ws[1..] == words + ws;
    }
  }

  lemma {:induction false} LexComment(s: string, rest: string)
    requires '\n' !in s && '\0' !in s
    ensures Lex(s + ("\n" + rest), Comment, "", []) == Parse(rest)
    decreases |s|
  {
    var end := "\n" + rest;
    if s == "" {
      assert s + end == end;
      LexStep('\n', rest, Comment, "", []);
    } else {
      assert s == [s[0]] + s[1..];
      Assoc([s[0]], s[1..], end);
      LexStep(s[0], s[1..] + end, Comment, "", []);
      LexComment(s[1..], rest);
    }
  }

  lemma LexShebang(rest: string)
    ensures Parse(SHEBANG + rest) == Parse(rest)
  {
    var line := "!/bin/sh";
    assert SHEBANG == ['#'] + (line + "\n");
    Assoc(['#'], line + "\n", rest);
    Assoc(line, "\n", rest);
    LexStep('#', line + ("\n" + rest), Between, "", []);
    LexComment(line, rest);
  }

  /** A line of one unquoted word. */
  lemma LexOneWord(a: string, rest: string)
    requires PlainWord(a)
    ensures Parse(a + ("\n" + rest)) == Emit([a], Parse(rest))
  {
    LexPlainWord(a, "\n" + rest, []);
    LexStep('\n', rest, Word, a, []);
    assert [] + [a] == [a];
  }

  /** A line of two. */
  lemma LexTwoWords(a: string, b: string, rest: string)
    requires PlainWord(a) && PlainWord(b)
    ensures Parse(a + (" " + (b + ("\n" + rest)))) == Emit([a, b], Parse(rest))
  {
    var end := b + ("\n" + rest);
    LexPlainWord(a, " " + end, []);
    LexStep(' ', end, Word, a, []);
    LexPlainWord(b, "\n" + rest, [a]);
    LexStep('\n', rest, Word, b, [a]);
    assert [] + [a] == [a] && [a] + [b] == [a, b];
  }

  lemma LexSetE(rest: string)
    ensures Parse(SET_E + rest) == Emit(["set", "-e"], Parse(rest))
  {
    var a, b := "set", "-e";
    assert SET_E == a + (" " + (b + "\n"));
    Assoc(a, " " + (b + "\n"), rest);
    Assoc(" ", b + "\n", rest);
    Assoc(b, "\n", rest);
    LexTwoWords(a, b, rest);
  }

  function ExportLines(env: seq<string>): seq<Line>
  {
    if env == [] then []
    else if Kept(env[0]) then [["export", env[0]]] + ExportLines(env[1..])
    else ExportLines(env[1..])
  }

  function CdLines(dir: string): seq<Line>
  {
    if dir == "" then [] else [["cd", dir]]
  }

  function BodyLines(cmd: seq<string>, po: ExecConfig): seq<Line>
  {
    ExportLines(po.env) + (CdLines(po.workingDir) + [["exec"] + cmd])
  }

  lemma PlainName(s: string)
    requires Name(s)
    ensures forall c :: c in s ==> Plain(c)
  {
    forall c | c in s
      ensures Plain(c)
    {
      assert NameChar(c);
    }
  }

  lemma EnvLineText(entry: string, rest: string)
    requires Kept(entry)
    ensures EnvLine(entry) + rest
         == "export" + (" " + (Key(entry) + ("=" + (ShellSingleQuote(Value(entry)) + ("\n" + rest)))))
  {
    assert "export " == "export" + " ";
    SixParts("export", " ", Key(entry), "=", ShellSingleQuote(Value(entry)), "\n", rest);
  }

  lemma SixParts(a: string, b: string, c: string, d: string, e: string, f: string, rest: string)
    ensures a + b + c + d + e + f + rest == a + (b + (c + (d + (e + (f + rest)))))
  {
    Assoc(a + b + c + d + e, f, rest);
    Assoc(a + b + c + d, e, f + rest);
    Assoc(a + b + c, d, e + (f + rest));
    Assoc(a + b, c, d + (e + (f + rest)));
    Assoc(a, b, c + (d + (e + (f + rest))));
  }

  /** An unquoted word with a quoted one right behind it, at the end of a line. */
  lemma LexJoinedWord(word: string, value: string, rest: string, words: Line)
    requires PlainWord(word) && '\0' !in value
    ensures Lex(word + (ShellSingleQuote(value) + ("\n" + rest)), Between, "", words) == Emit(words + [word + value], Parse(rest))
  {
    LexPlainWord(word, ShellSingleQuote(value) + ("\n" + rest), words);
    LexQuote(value, "\n" + rest, word, words);
    LexStep('\n', rest, Word, word + value, words);
  }

  lemma PlainSnoc(s: string, c: char)
    requires PlainWord(s) && Plain(c)
    ensures PlainWord(s + [c])
  {
  }

  lemma EntryParts(entry: string)
    requires Kept(entry)
    ensures entry == (Key(entry) + ['=']) + Value(entry)
  {
  }

  /** `key='value'` up to the end of its line is one word: the entry itself. */
  lemma LexAssignment(entry: string, rest: string, words: Line)
    requires Kept(entry) && Name(Key(entry)) && '\0' !in entry
    ensures var q := ShellSingleQuote(Value(entry));
      Lex(Key(entry) + ("=" + (q + ("\n" + rest))), Between, "", words) == Emit(words + [entry], Parse(rest))
  {
    var key, value := Key(entry), Value(entry);
    PlainName(key);
    PlainSnoc(key, '=');
    EntryParts(entry);
    assert '\0' !in value;
    Assoc(key, ['='], ShellSingleQuote(value) + ("\n" + rest));
    LexJoinedWord(key + ['='], value, rest, words);
  }

  /** An unquoted word at the start of a line, and the blank behind it. */
  lemma LexFirstWord(word: string, rest: string)
    requires PlainWord(word)
    ensures Parse(word + (" " + rest)) == Lex(rest, Between, "", [word])
  {
    LexPlainWord(word, " " + rest, []);
    LexStep(' ', rest, Word, word, []);
    assert [] + [word] == [word];
  }

  lemma ExportIsPlain()
    ensures PlainWord("export")
  {
  }

  lemma LexEnvLine(entry: string, rest: string)
    requires Kept(entry) && Name(Key(entry)) && '\0' !in entry
    ensures Parse(EnvLine(entry) + rest) == Emit(["export", entry], Parse(rest))
  {
    var word := "export";
    EnvLineText(entry, rest);
    ExportIsPlain();
    LexFirstWord(word, Key(entry) + ("=" + (ShellSingleQuote(Value(entry)) + ("\n" + rest))));
    LexAssignment(entry, rest, [word]);
    assert [word] + [entry] == [word, entry];
  }

  /** Command lines in front of what is read after them. */
  function Prepend(lines: seq<Line>, r: Option<seq<Line>>): Option<seq<Line>>
  {
    if r.None? then None else Some(lines + r.value)
  }

  lemma {:induction false} LexEnv(env: seq<string>, rest: string)
    requires forall entry :: entry in env && Kept(entry) ==> '\0' !in entry && Name(Key(entry))
    ensures Parse(EnvText(env) + rest) == Prepend(ExportLines(env), Parse(rest))
    decreases |env|
  {
    if env == [] {
      assert EnvText(env) + rest == rest;
      assert Parse(rest).Some? ==> [] + Parse(rest).value == Parse(rest).value;
    } else {
      var more := EnvText(env[1..]) + rest;
      LexEnv(env[1..], rest);
      Assoc(EnvLine(env[0]), EnvText(env[1..]), rest);
      if Kept(env[0]) {
        LexEnvLine(env[0], more);
        if Parse(rest).Some? {
          assert [["export", env[0]]] + (ExportLines(env[1..]) + Parse(rest).value)
              == ([["export", env[0]]] + ExportLines(env[1..])) + Parse(rest).value;
        }
      } else {
        assert EnvLine(env[0]) + more == more;
      }
    }
  }

  lemma LexCd(dir: string, rest: string)
    requires '\0' !in dir
    ensures Parse(CdText(dir) + rest) == Prepend(CdLines(dir), Parse(rest))
  {
    if dir == "" {
      assert CdText(dir) + rest == rest;
      assert Parse(rest).Some? ==> [] + Parse(rest).value == Parse(rest).value;
    } else {
      var cd, q, end := PlainText(["cd"]), ShellSingleQuote(dir), "\n" + rest;
      assert cd == "cd ";
      Assoc(cd, q, "\n");
      Assoc(cd, q + "\n", rest);
      Assoc(q, "\n", rest);
      assert PlainWord("cd");
      LexPlainWords(["cd"], q + end, []);
      assert [] + ["cd"] == ["cd"];
      LexQuote(dir, end, "", ["cd"]);
      LexStep('\n', rest, Word, dir, ["cd"]);
      assert ["cd"] + [dir] == ["cd", dir];
    }
  }

  lemma LexExec(cmd: seq<string>)
    requires forall a :: a in cmd ==> '\0' !in a
    ensures Parse("exec" + (ArgsText(cmd) + "\n")) == Some([["exec"] + cmd])
  {
    assert PlainWord("exec");
    LexPlainWord("exec", ArgsText(cmd) + "\n", []);
    LexArgsLine(cmd, "exec", []);
    assert [] + (["exec"] + cmd) == ["exec"] + cmd;
  }

  lemma LexBody(cmd: seq<string>, po: ExecConfig)
    requires NulFree(cmd, po) && KeysAreNames(po)
    ensures Parse(BodyText(cmd, po)) == Some(BodyLines(cmd, po))
  {
    var args, env, cd := ArgsText(cmd), EnvText(po.env), CdText(po.workingDir);
    var exec := "exec" + (args + "\n");
    assert BodyText(cmd, po) == env + (cd + exec) by {
      Assoc(env + cd + "exec", args, "\n");
      Assoc(env + cd, "exec", args + "\n");
      Assoc(env, cd, exec);
    }
    LexExec(cmd);
    LexCd(po.workingDir, exec);
    LexEnv(po.env, cd + exec);
  }

  lemma {:induction false} EscapeKeepsBytes(s: string, c: char)
    requires c in s
    ensures c in EscapeQuotes(s)
    decreases |s|
  {
    if s[0] != c {
      EscapeKeepsBytes(s[1..], c);
    }
  }

  const SU_WORDS: Line := ["exec", "su", "-s", "/bin/sh", "-c"]

  lemma PlainTextCons(w: string, ws: Line)
    ensures PlainText([w] + ws) == w + " " + PlainText(ws)
  {
    assert ([w] + ws)[1..] == ws;
  }

  lemma FiveWords(a: string, b: string, c: string, d: string, e: string)
    ensures PlainText([a, b, c, d, e]) == (a + " ") + ((b + " ") + ((c + " ") + ((d + " ") + (e + " "))))
  {
    PlainTextCons(e, []);
    PlainTextCons(d, [e]);
    PlainTextCons(c, [d, e]);
    PlainTextCons(b, [c, d, e]);
    PlainTextCons(a, [b, c, d, e]);
    assert [e] + [] == [e] && [d] + [e] == [d, e] && [c] + [d, e] == [c, d, e];
    assert [b] + [c, d, e] == [b, c, d, e] && [a] + [b, c, d, e] == [a, b, c, d, e];
    assert e + " " + "" == e + " ";
  }

  lemma SuWordsText()
    ensures PlainText(SU_WORDS) == SU
  {
    FiveWords("exec", "su", "-s", "/bin/sh", "-c");
  }

  lemma SuTextSplit(inner: string, user: string)
    ensures SuText(inner, user) == SU + (ShellSingleQuote(inner) + (ArgsText([user]) + "\n"))
  {
    var q, u := ShellSingleQuote(inner), ShellSingleQuote(user);
    assert ArgsText([user]) == " " + u by {
      assert ArgsText([user][1..]) == "";
      assert " " + u + "" == " " + u;
    }
    Assoc(SU + q, " ", u);
    Assoc(SU + q, ArgsText([user]), "\n");
    Assoc(SU, q, ArgsText([user]) + "\n");
  }

  /** Unquoted words, then two quoted ones. */
  lemma LexWordsAndTwo(ws: Line, a: string, b: string)
    requires PlainWords(ws) && '\0' !in a && '\0' !in b
    ensures Parse(PlainText(ws) + (ShellSingleQuote(a) + (ArgsText([b]) + "\n"))) == Some([ws + [a, b]])
  {
    var end := ArgsText([b]) + "\n";
    LexPlainWords(ws, ShellSingleQuote(a) + end, []);
    assert [] + ws == ws;
    LexQuote(a, end, "", ws);
    LexArgsLine([b], a, ws);
    assert [a] + [b] == [a, b];
  }

  lemma LexCleanSu(inner: string, user: string)
    requires LoginName(user) && '\0' !in inner
    ensures Parse(SuText(inner, user)) == Some([SU_WORDS + [inner, user]])
  {
    SuTextSplit(inner, user);
    SuWordsText();
    SuWordsPlain();
    LexWordsAndTwo(SU_WORDS, inner, user);
  }

  lemma LexSu(inner: string, user: string)
    requires LoginName(user)
    ensures Parse(SuText(inner, user)) == if '\0' in inner then None else Some([SU_WORDS + [inner, user]])
  {
    if '\0' in inner {
      SuTextSplit(inner, user);
      EscapeKeepsBytes(inner, '\0');
      assert '\0' in ShellSingleQuote(inner);
      LexRefusesNul(SuText(inner, user), Between, "", []);
    } else {
      LexCleanSu(inner, user);
    }
  }

  lemma ShortWordsPlain()
    ensures PlainWord("su") && PlainWord("-s") && PlainWord("-c")
  {
  }

  lemma SuWordsPlain()
    ensures PlainWords(SU_WORDS)
  {
    ShortWordsPlain();
    assert PlainWord("exec") && PlainWord("/bin/sh");
  }

  // ---------- Running the script ----------

  lemma RunExportLine(entry: string, st: State, w: World)
    requires Kept(entry) && Name(Key(entry))
    ensures RunLine(["export", entry], st, w) == Continue(st.(env := st.env[Key(entry) := Value(entry)]))
  {
    var line := ["export", entry];
    assert line[1..] == [entry] && [entry][1..] == [];
    assert entry[0] == Key(entry)[0] && NameStart(entry[0]);
    var st' := st.(env := st.env[Key(entry) := Value(entry)]);
    assert Export([entry], st) == Export([], st');
    assert RunLine(line, st, w) == Export([entry], st);
  }

  lemma FirstEntry(env: seq<string>, base: Env)
    requires env != [] && Kept(env[0])
    ensures base[Key(env[0]) := Value(env[0])] + EnvMap(env[1..]) == base + EnvMap(env)
  {
  }

  lemma {:induction false} RunExports(env: seq<string>, rest: seq<Line>, st: State, w: World)
    requires forall entry :: entry in env && Kept(entry) ==> Name(Key(entry))
    ensures RunLines(ExportLines(env) + rest, st, w) == RunLines(rest, st.(env := st.env + EnvMap(env)), w)
    decreases |env|
  {
    if env == [] {
      assert ExportLines(env) + rest == rest;
      assert st.env + EnvMap(env) == st.env;
    } else {
      var entry := env[0];
      if Kept(entry) {
        var line := ["export", entry];
        var st' := st.(env := st.env[Key(entry) := Value(entry)]);
        var lines := ExportLines(env[1..]) + rest;
        assert ExportLines(env) + rest == [line] + lines;
        RunExportLine(entry, st, w);
        RunExports(env[1..], rest, st', w);
        FirstEntry(env, st.env);
      } else {
        RunExports(env[1..], rest, st, w);
      }
    }
  }

  /** Exec of exactly `cmd` needs `cmd[0]` not to be taken for an option. */
  lemma RunExec(cmd: seq<string>, st: State, w: World)
    requires cmd != []
    ensures !OptionLike(cmd[0]) ==> RunLines([["exec"] + cmd], st, w) == Execed(cmd, st.env, st.cwd, st.user)
    ensures OptionLike(cmd[0]) ==>
      forall env, cwd, user :: RunLines([["exec"] + cmd], st, w) != Execed(cmd, env, cwd, user)
  {
    var lines := [["exec"] + cmd];
    assert lines[0][1..] == cmd && lines[1..] == [];
    if OptionLike(cmd[0]) {
      assert |cmd[1..]| < |cmd|;
    }
  }

  /** What the lines of the body do: `cd` comes behind the exports, and sets its variables over theirs. */
  function BodyRun(cmd: seq<string>, po: ExecConfig, base: Env, cwd: string, user: string, w: World): Outcome
  {
    var env := base + EnvMap(po.env);
    if po.workingDir == "" then Execed(cmd, env, cwd, user)
    else
      match w.enter(user, env, cwd, po.workingDir)
      case None => Failed
      case Some(to) => Execed(cmd, env["OLDPWD" := cwd]["PWD" := to], to, user)
  }

  lemma RunBody(cmd: seq<string>, po: ExecConfig, st: State, w: World)
    requires cmd != [] && KeysAreNames(po) && st.errexit
    requires po.workingDir == "" || po.workingDir[0] != '-'
    ensures var o := RunLines(BodyLines(cmd, po), st, w);
      if OptionLike(cmd[0]) then !o.Execed? || o.argv != cmd
      else o == BodyRun(cmd, po, st.env, st.cwd, st.user, w)
  {
    var exec := [["exec"] + cmd];
    var st' := st.(env := st.env + EnvMap(po.env));
    RunExports(po.env, CdLines(po.workingDir) + exec, st, w);
    if po.workingDir == "" {
      assert CdLines(po.workingDir) + exec == exec;
      RunExec(cmd, st', w);
    } else {
      var line := ["cd", po.workingDir];
      var lines := CdLines(po.workingDir) + exec;
      assert lines[0] == line && lines[1..] == exec;
      match w.enter(st'.user, st'.env, st'.cwd, po.workingDir)
      case None =>
      case Some(to) =>
        RunExec(cmd, Cd(po.workingDir, st', w).state, w);
    }
  }

  /** A working directory that looks like an option takes `cd` out of the modelled shell. */
  lemma RunBadDir(cmd: seq<string>, po: ExecConfig, st: State, w: World)
    requires KeysAreNames(po) && po.workingDir != "" && po.workingDir[0] == '-'
    ensures RunLines(BodyLines(cmd, po), st, w) == Unspecified
  {
    var lines := CdLines(po.workingDir) + [["exec"] + cmd];
    RunExports(po.env, lines, st, w);
    assert lines[0] == ["cd", po.workingDir];
  }

  /** The body of the script, in the shell that gets to run it: `set -e` first, then the body. */
  function BodyOutcome(cmd: seq<string>, po: ExecConfig, base: Env, cwd: string, user: string, w: World): Outcome
  {
    RunScript(SET_E + BodyText(cmd, po), base, cwd, user, w)
  }

  lemma BodyOutcomeRuns(cmd: seq<string>, po: ExecConfig, base: Env, cwd: string, user: string, w: World)
    requires NulFree(cmd, po) && KeysAreNames(po)
    ensures BodyOutcome(cmd, po, base, cwd, user, w)
         == RunLines(BodyLines(cmd, po), State(base, cwd, user, true), w)
  {
    LexBody(cmd, po);
    LexSetE(BodyText(cmd, po));
    var lines := [["set", "-e"]] + BodyLines(cmd, po);
    assert lines[1..] == BodyLines(cmd, po);
  }

  lemma ObservedPlain(cmd: seq<string>, po: ExecConfig, base: Env, cwd: string, user: string, w: World)
    requires po.user == ""
    ensures Observed(cmd, po, base, cwd, user, w) == BodyOutcome(cmd, po, base, cwd, user, w)
  {
    Assoc(SHEBANG, SET_E, BodyText(cmd, po));
    LexShebang(SET_E + BodyText(cmd, po));
  }

  /** A script that switches user is read as `set -e` and the `su` line. */
  lemma SuScriptReads(inner: string, user: string)
    requires LoginName(user)
    ensures Parse(SHEBANG + SET_E + SuText(inner, user)) ==
      if '\0' in inner then None else Some([["set", "-e"], SU_WORDS + [inner, user]])
  {
    var su := SuText(inner, user);
    Assoc(SHEBANG, SET_E, su);
    LexShebang(SET_E + su);
    LexSetE(su);
    LexSu(inner, user);
    assert [["set", "-e"]] + [SU_WORDS + [inner, user]] == [["set", "-e"], SU_WORDS + [inner, user]];
  }

  lemma ObservedSu(cmd: seq<string>, po: ExecConfig, base: Env, cwd: string, user: string, w: World)
    requires LoginName(po.user)
    ensures Observed(cmd, po, base, cwd, user, w)
         == if '\0' in SET_E + BodyText(cmd, po) then Unspecified
            else match w.su(user, base, po.user)
              case None => Failed
              case Some(env) => BodyOutcome(cmd, po, env, cwd, po.user, w)
  {
    var inner := SET_E + BodyText(cmd, po);
    SuScriptReads(inner, po.user);
    RunSu(inner, po.user, State(base, cwd, user, false), w);
  }

  /** What the script does is what its body does, as the login user when there is one. */
  lemma ObservedIsBody(cmd: seq<string>, po: ExecConfig, base: Env, cwd: string, user: string, w: World)
    requires po.user == "" || LoginName(po.user)
    ensures Observed(cmd, po, base, cwd, user, w)
         == if po.user == "" then BodyOutcome(cmd, po, base, cwd, user, w)
            else if '\0' in SET_E + BodyText(cmd, po) then Unspecified
            else match w.su(user, base, po.user)
              case None => Failed
              case Some(env) => BodyOutcome(cmd, po, env, cwd, po.user, w)
  {
    if po.user == "" {
      ObservedPlain(cmd, po, base, cwd, user, w);
    } else {
      ObservedSu(cmd, po, base, cwd, user, w);
    }
  }

  lemma RunSu(inner: string, user: string, st: State, w: World)
    ensures RunLines([["set", "-e"], SU_WORDS + [inner, user]], st, w)
         == Execed(["su", "-s", "/bin/sh", "-c", inner, user], st.env, st.cwd, st.user)
    ensures ["su", "-s", "/bin/sh", "-c", inner, user][..4] == ["su", "-s", "/bin/sh", "-c"]
  {
    var line := SU_WORDS + [inner, user];
    var lines := [["set", "-e"], line];
    assert lines[1..] == [line];
    assert line[1..] == ["su", "-s", "/bin/sh", "-c", inner, user];
  }

  // ---------- The main results ----------

  /**
   * For every faithful executable and whatever environment, directory, user and system it is
   * started in, the rendered script ends as the executable asks: exec of exactly `cmd`, with
   * exactly the kept entries exported, in the working directory, as the login user; and if `cd`
   * or `su` fails nothing is started.
   */
  lemma CompilationPreservesMeaning(cmd: seq<string>, po: ExecConfig, base: Env, cwd: string, user: string, w: World)
    requires cmd != [] && (po.user == "" || LoginName(po.user))
    requires Faithful(cmd, po)
    ensures Observed(cmd, po, base, cwd, user, w) == Intended(cmd, po, base, cwd, user, w)
  {
    ObservedIsBody(cmd, po, base, cwd, user, w);
    CleanBody(cmd, po);
    if po.user == "" {
      FaithfulBody(cmd, po, base, cwd, user, w);
    } else {
      match w.su(user, base, po.user)
      case None =>
      case Some(env) => FaithfulBody(cmd, po, env, cwd, po.user, w);
    }
  }

  lemma CleanBody(cmd: seq<string>, po: ExecConfig)
    requires NulFree(cmd, po) && KeysAreNames(po)
    ensures '\0' !in SET_E + BodyText(cmd, po)
  {
    LexBody(cmd, po);
    if '\0' in BodyText(cmd, po) {
      LexRefusesNul(BodyText(cmd, po), Between, "", []);
    }
    assert '\0' !in SET_E;
  }

  lemma FaithfulBody(cmd: seq<string>, po: ExecConfig, base: Env, cwd: string, user: string, w: World)
    requires cmd != [] && Faithful(cmd, po)
    ensures BodyOutcome(cmd, po, base, cwd, user, w) == Launch(cmd, po, base, cwd, user, w)
  {
    BodyOutcomeRuns(cmd, po, base, cwd, user, w);
    RunBody(cmd, po, State(base, cwd, user, true), w);
    if po.workingDir != "" {
      EnvMapKeysAreKept(po.env);
      match w.enter(user, base + EnvMap(po.env), cwd, po.workingDir)
      case None =>
      case Some(to) => SetBefore(base, EnvMap(po.env), cwd, to);
    }
  }

  /** Every key of the environment comes from a kept entry. */
  lemma {:induction false} EnvMapKeysAreKept(env: seq<string>)
    ensures forall key :: key in EnvMap(env) ==> exists entry :: entry in env && Kept(entry) && Key(entry) == key
    decreases |env|
  {
    if env != [] {
      EnvMapKeysAreKept(env[1..]);
      forall key | key in EnvMap(env)
        ensures exists entry :: entry in env && Kept(entry) && Key(entry) == key
      {
        if key in EnvMap(env[1..]) {
          var entry :| entry in env[1..] && Kept(entry) && Key(entry) == key;
          assert entry in env;
        } else {
          assert env[0] in env;
        }
      }
    }
  }

  /** The directory variables can as well be set first if they are not among the others. */
  lemma SetBefore(base: Env, asked: Env, from: string, to: string)
    requires "PWD" !in asked && "OLDPWD" !in asked
    ensures (base + asked)["OLDPWD" := from]["PWD" := to] == base["OLDPWD" := from]["PWD" := to] + asked
  {
  }

  lemma {:induction false} EnvTextKeepsNul(env: seq<string>, entry: string)
    requires entry in env && Kept(entry) && '\0' in entry
    ensures '\0' in EnvText(env)
    decreases |env|
  {
    if env[0] == entry {
      assert entry == Key(entry) + "=" + Value(entry);
      if '\0' in Value(entry) {
        EscapeKeepsBytes(Value(entry), '\0');
      }
      assert '\0' in EnvLine(entry);
    } else {
      assert entry in env[1..];
      EnvTextKeepsNul(env[1..], entry);
    }
  }

  lemma {:induction false} ArgsTextKeepsNul(args: seq<string>, arg: string)
    requires arg in args && '\0' in arg
    ensures '\0' in ArgsText(args)
    decreases |args|
  {
    if args[0] == arg {
      EscapeKeepsBytes(arg, '\0');
      assert '\0' in ShellSingleQuote(arg);
    } else {
      assert arg in args[1..];
      ArgsTextKeepsNul(args[1..], arg);
    }
  }

  lemma BodyKeepsNul(cmd: seq<string>, po: ExecConfig)
    requires !NulFree(cmd, po)
    ensures '\0' in BodyText(cmd, po)
  {
    if a :| a in cmd && '\0' in a {
      ArgsTextKeepsNul(cmd, a);
    } else if '\0' in po.workingDir {
      EscapeKeepsBytes(po.workingDir, '\0');
      assert '\0' in ShellSingleQuote(po.workingDir);
      assert '\0' in CdText(po.workingDir);
    } else {
      var entry :| entry in po.env && Kept(entry) && '\0' in entry;
      EnvTextKeepsNul(po.env, entry);
    }
  }

  /** A kept entry's key is in the environment, whatever comes later. */
  lemma {:induction false} EnvMapHasKeys(env: seq<string>, entry: string)
    requires entry in env && Kept(entry)
    ensures Key(entry) in EnvMap(env)
    decreases |env|
  {
    if env[0] != entry {
      assert entry in env[1..];
      EnvMapHasKeys(env[1..], entry);
    }
  }

  /** A system in which every directory can be entered and is then called `to`, and every user has an empty environment. */
  ghost function Calling(to: string): World
  {
    World((user, env, cwd, dir) => Some(to), (from, env, user) => Some(map[]))
  }

  /** The environment does not ask for the value `value` under `key`. */
  predicate AsksForOther(env: Env, key: string, value: string)
  {
    key in env ==> env[key] != value
  }

  function AnotherValue(env: Env, key: string): (value: string)
    ensures AsksForOther(env, key, value)
  {
    if key in env then env[key] + "/" else "/"
  }

  /** `cd` overwrites an entry for PWD or OLDPWD. */
  lemma EnteringOverwrites(cmd: seq<string>, po: ExecConfig, cwd: string, user: string, to: string)
    requires po.workingDir != "" && !LeavesDirVars(po)
    requires AsksForOther(EnvMap(po.env), "OLDPWD", cwd) && AsksForOther(EnvMap(po.env), "PWD", to)
    ensures BodyRun(cmd, po, map[], cwd, user, Calling(to)) != Launch(cmd, po, map[], cwd, user, Calling(to))
  {
    var asked, w := EnvMap(po.env), Calling(to);
    var entry :| entry in po.env && Kept(entry) && (Key(entry) == "PWD" || Key(entry) == "OLDPWD");
    EnvMapHasKeys(po.env, entry);
    var ran, meant := BodyRun(cmd, po, map[], cwd, user, w), Launch(cmd, po, map[], cwd, user, w);
    assert meant.env[Key(entry)] == asked[Key(entry)] != ran.env[Key(entry)];
  }

  /** Every executable that is not faithful goes wrong on a system in which nothing fails. */
  lemma UnfaithfulDiffers(cmd: seq<string>, po: ExecConfig, cwd: string, to: string)
    requires cmd != [] && (po.user == "" || LoginName(po.user))
    requires !Faithful(cmd, po)
    requires AsksForOther(EnvMap(po.env), "OLDPWD", cwd) && AsksForOther(EnvMap(po.env), "PWD", to)
    ensures Observed(cmd, po, map[], cwd, "root", Calling(to)) != Intended(cmd, po, map[], cwd, "root", Calling(to))
  {
    var w := Calling(to);
    var user := if po.user == "" then "root" else po.user;
    ObservedIsBody(cmd, po, map[], cwd, "root", w);
    assert Intended(cmd, po, map[], cwd, "root", w) == Launch(cmd, po, map[], cwd, user, w);
    if !NulFree(cmd, po) {
      BodyKeepsNul(cmd, po);
      LexRefusesNul(SET_E + BodyText(cmd, po), Between, "", []);
    } else if !KeysAreNames(po) {
      BadKeyDiffers(cmd, po, cwd, user, w);
    } else {
      BodyOutcomeRuns(cmd, po, map[], cwd, user, w);
      var st := State(map[], cwd, user, true);
      if po.workingDir != "" && po.workingDir[0] == '-' {
        RunBadDir(cmd, po, st, w);
      } else {
        RunBody(cmd, po, st, w);
        if po.workingDir != "" && !LeavesDirVars(po) {
          EnteringOverwrites(cmd, po, cwd, user, to);
        }
      }
    }
  }

  /** A program that gets a variable without a name was not started by the body. */
  lemma BadKeyDiffers(cmd: seq<string>, po: ExecConfig, cwd: string, user: string, w: World)
    requires !KeysAreNames(po) && Launch(cmd, po, map[], cwd, user, w).Execed?
    ensures BodyOutcome(cmd, po, map[], cwd, user, w) != Launch(cmd, po, map[], cwd, user, w)
  {
    var entry :| entry in po.env && Kept(entry) && !Name(Key(entry));
    EnvMapHasKeys(po.env, entry);
    assert Key(entry) in Launch(cmd, po, map[], cwd, user, w).env;
    var lines := Parse(SET_E + BodyText(cmd, po));
    if lines.Some? {
      RunKeepsNames(lines.value, State(map[], cwd, user, false), w);
    }
  }

  /** Wherever and as whomever it is started, the rendered script does what was asked for. */
  ghost predicate AlwaysAsIntended(cmd: seq<string>, po: ExecConfig)
  {
    forall base, cwd, user, w :: Observed(cmd, po, base, cwd, user, w) == Intended(cmd, po, base, cwd, user, w)
  }

  lemma FaithfulAlways(cmd: seq<string>, po: ExecConfig)
    requires cmd != [] && (po.user == "" || LoginName(po.user)) && Faithful(cmd, po)
    ensures AlwaysAsIntended(cmd, po)
  {
    forall base, cwd, user, w
      ensures Observed(cmd, po, base, cwd, user, w) == Intended(cmd, po, base, cwd, user, w)
    {
      CompilationPreservesMeaning(cmd, po, base, cwd, user, w);
    }
  }

  lemma OneFailure(cmd: seq<string>, po: ExecConfig, base: Env, cwd: string, user: string, w: World)
    requires Observed(cmd, po, base, cwd, user, w) != Intended(cmd, po, base, cwd, user, w)
    ensures !AlwaysAsIntended(cmd, po)
  {
  }

  lemma UnfaithfulSometimes(cmd: seq<string>, po: ExecConfig)
    requires cmd != [] && (po.user == "" || LoginName(po.user)) && !Faithful(cmd, po)
    ensures !AlwaysAsIntended(cmd, po)
  {
    var cwd, to := AnotherValue(EnvMap(po.env), "OLDPWD"), AnotherValue(EnvMap(po.env), "PWD");
    UnfaithfulDiffers(cmd, po, cwd, to);
    OneFailure(cmd, po, map[], cwd, "root", Calling(to));
  }

  /** The rendered script always does what was asked for exactly when the executable is faithful. */
  lemma CompilationIsExact(cmd: seq<string>, po: ExecConfig)
    requires cmd != [] && (po.user == "" || LoginName(po.user))
    ensures Faithful(cmd, po) <==> AlwaysAsIntended(cmd, po)
  {
    if Faithful(cmd, po) {
      FaithfulAlways(cmd, po);
    } else {
      UnfaithfulSometimes(cmd, po);
    }
  }

  predicate Sets(entry: string, key: string)
  {
    Kept(entry) && Key(entry) == key
  }

  /** The last entry for a key decides its value. */
  lemma {:induction false} EnvMapLast(env: seq<string>, key: string, i: nat)
    requires i < |env| && Sets(env[i], key)
    requires forall j :: i < j < |env| ==> !Sets(env[j], key)
    ensures key in EnvMap(env) && EnvMap(env)[key] == Value(env[i])
    decreases |env|
  {
    if i > 0 {
      EnvMapLast(env[1..], key, i - 1);
    } else {
      EnvMapAbsent(env[1..], key);
    }
  }

  /** A key that no kept entry sets is not there. */
  lemma {:induction false} EnvMapAbsent(env: seq<string>, key: string)
    requires forall j :: 0 <= j < |env| ==> !Sets(env[j], key)
    ensures key !in EnvMap(env)
    decreases |env|
  {
    if env != [] {
      assert !Sets(env[0], key);
      EnvMapAbsent(env[1..], key);
    }
  }

  /** A concrete executable whose script goes wrong: the shell takes `-l` for an option of `exec`. */
  lemma DashCommandFails()
    ensures Observed(["-l"], ZERO_CONFIG, map[], "/", "root", Calling("/"))
         != Intended(["-l"], ZERO_CONFIG, map[], "/", "root", Calling("/"))
  {
    assert OptionLike("-l");
    UnfaithfulDiffers(["-l"], ZERO_CONFIG, "/", "/");
  }

  /** Another one: with a working directory, an entry for PWD such as `PWD=/x` is lost. */
  lemma PwdEntryFails(cmd: seq<string>, entry: string, to: string)
    requires cmd != [] && to != "" && Sets(entry, "PWD") && Value(entry) != to
    ensures var po := ExecConfig("", to, [entry]);
      Observed(cmd, po, map[], "/", "root", Calling(to)) != Intended(cmd, po, map[], "/", "root", Calling(to))
  {
    var po := ExecConfig("", to, [entry]);
    assert entry in po.env;
    EnvMapLast(po.env, "PWD", 0);
    EnvMapAbsent(po.env, "OLDPWD");
    UnfaithfulDiffers(cmd, po, "/", to);
  }
}
